/** internal/adapter/executor/service.go: DoAsync and Close racing on a mutex,
    a wait group and a sync.Once. Every lock, check, Add, unlock, start, end
    and Done is a step of its own; the scheduler picks any enabled step. */
module Executor {
  import opened Wrappers

  /** A DoAsync call and the goroutine it starts. */
  datatype Task =
    | Calling                      // before the mutex
    | Locked                       // holds the mutex, has not looked at closed
    | Added                        // holds the mutex, has done wg.Add(1)
    | Accepted                     // mutex released, goroutine not started
    | Running                      // in fn
    | Ended(panicked: bool)        // fn returned or panicked, Done still to come
    | Done
    | Refused                      // ErrExecutorClosed
    | Invalid                      // ErrExecutorFnInvalid

  datatype Closer = Entering | WantsMutex | HasMutex | Waiting | Returned

  datatype Once = Free | Busy(winner: nat) | Finished

  datatype Holder = ByTask(id: nat) | ByCloser(id: nat)

  /** `starts` records how often each task's fn was entered. */
  datatype State = State(tasks: map<nat, Task>, closers: map<nat, Closer>, mutex: Option<Holder>,
                         closed: bool, wg: int, once: Once, starts: map<nat, nat>)

  datatype Step =
    | Call(id: nat, isNil: bool) | LockTask(id: nat) | Decide(id: nat) | UnlockTask(id: nat)
    | Begin(id: nat) | End(id: nat, panicked: bool) | Finish(id: nat)
    | CallClose(id: nat) | EnterOnce(id: nat) | LockCloser(id: nat) | SetClosed(id: nat) | StopWaiting(id: nat) | LeaveOnce(id: nat)

  const INIT := State(map[], map[], None, false, 0, Free, map[])

  predicate IsTask(s: State, id: nat, t: Task) {
    id in s.tasks && s.tasks[id] == t
  }

  predicate IsCloser(s: State, id: nat, c: Closer) {
    id in s.closers && s.closers[id] == c
  }

  predicate Enabled(s: State, step: Step) {
    match step
    case Call(id, _) => id !in s.tasks
    case LockTask(id) => IsTask(s, id, Calling) && s.mutex.None?
    case Decide(id) => IsTask(s, id, Locked)
    case UnlockTask(id) => IsTask(s, id, Added)
    case Begin(id) => IsTask(s, id, Accepted)
    case End(id, _) => IsTask(s, id, Running)
    case Finish(id) => id in s.tasks && s.tasks[id].Ended?
    case CallClose(id) => id !in s.closers
    case EnterOnce(id) => IsCloser(s, id, Entering) && s.once.Free?
    case LockCloser(id) => IsCloser(s, id, WantsMutex) && s.mutex.None?
    case SetClosed(id) => IsCloser(s, id, HasMutex)
    case StopWaiting(id) => IsCloser(s, id, Waiting) && s.wg == 0
    case LeaveOnce(id) => IsCloser(s, id, Entering) && s.once.Finished?
  }

  function Apply(s: State, step: Step): State
    requires Enabled(s, step)
  {
    match step
    case Call(id, isNil) => s.(tasks := s.tasks[id := if isNil then Invalid else Calling])
    case LockTask(id) => s.(tasks := s.tasks[id := Locked], mutex := Some(ByTask(id)))
    case Decide(id) =>
      if s.closed then s.(tasks := s.tasks[id := Refused], mutex := None)
      else s.(tasks := s.tasks[id := Added], wg := s.wg + 1)
    case UnlockTask(id) => s.(tasks := s.tasks[id := Accepted], mutex := None)
    case Begin(id) => s.(tasks := s.tasks[id := Running], starts := s.starts[id := Starts(s, id) + 1])
    case End(id, panicked) => s.(tasks := s.tasks[id := Ended(panicked)])
    case Finish(id) => s.(tasks := s.tasks[id := Done], wg := s.wg - 1)
    case CallClose(id) => s.(closers := s.closers[id := Entering])
    case EnterOnce(id) => s.(closers := s.closers[id := WantsMutex], once := Busy(id))
    case LockCloser(id) => s.(closers := s.closers[id := HasMutex], mutex := Some(ByCloser(id)))
    case SetClosed(id) => s.(closers := s.closers[id := Waiting], closed := true, mutex := None)
    case StopWaiting(id) => s.(closers := s.closers[id := Returned], once := Finished)
    case LeaveOnce(id) => s.(closers := s.closers[id := Returned])
  }

  function Starts(s: State, id: nat): nat {
    if id in s.starts then s.starts[id] else 0
  }

  function Run(steps: seq<Step>): Option<State> {
    if steps == [] then Some(INIT)
    else
      var before := Run(steps[..|steps| - 1]);
      var step := steps[|steps| - 1];
      if before.Some? && Enabled(before.value, step) then Some(Apply(before.value, step)) else None
  }

  // The invariant.

  predicate Owed(t: Task) {
    t.Added? || t.Accepted? || t.Running? || t.Ended?
  }

  /** Tasks that have done wg.Add and not yet wg.Done. */
  ghost function OwedIds(s: State): set<nat> {
    set id | id in s.tasks && Owed(s.tasks[id])
  }

  /** Inside closeOnce.Do. */
  predicate Closing(c: Closer) {
    c.WantsMutex? || c.HasMutex? || c.Waiting?
  }

  ghost predicate TaskInv(s: State, id: nat)
    requires id in s.tasks
  {
    var t := s.tasks[id];
    && (t.Locked? || t.Added? <==> s.mutex == Some(ByTask(id)))
    && (t.Added? ==> !s.closed)
    && (s.once.Finished? ==> !Owed(t))
    && Starts(s, id) == (if t.Running? || t.Ended? || t.Done? then 1 else 0)
  }

  ghost predicate CloserInv(s: State, id: nat)
    requires id in s.closers
  {
    var c := s.closers[id];
    && (c.HasMutex? <==> s.mutex == Some(ByCloser(id)))
    && (Closing(c) ==> s.once == Busy(id))
    && (c.Waiting? ==> s.closed)
    && (c.Returned? ==> s.once.Finished?)
  }

  ghost predicate Inv(s: State) {
    && (forall id :: id in s.tasks ==> TaskInv(s, id))
    && (forall id :: id in s.closers ==> CloserInv(s, id))
    && (s.mutex.Some? ==> if s.mutex.value.ByTask? then s.mutex.value.id in s.tasks else s.mutex.value.id in s.closers)
    && (forall id :: id in s.starts ==> id in s.tasks)
    && s.wg == |OwedIds(s)|
    && (s.once.Finished? ==> s.closed)
    && (s.once.Free? ==> !s.closed)
    && (s.once.Busy? ==> s.once.winner in s.closers && Closing(s.closers[s.once.winner]))
  }

  lemma TaskStepKeeps(s: State, s': State, id: nat)
    requires Inv(s) && id in s'.tasks && s'.tasks == s.tasks[id := s'.tasks[id]]
    requires s'.closers == s.closers && s'.closed == s.closed && s'.once == s.once
    requires s'.mutex == s.mutex || s.mutex == Some(ByTask(id)) || s'.mutex == Some(ByTask(id))
    requires s'.mutex == s.mutex || s'.mutex.None? || s.mutex.None?
    requires forall o :: o != id ==> Starts(s', o) == Starts(s, o)
    requires forall o :: o in s'.starts ==> o in s'.tasks
    requires s'.mutex.Some? && s'.mutex != s.mutex ==> s'.mutex.value == ByTask(id)
    requires s'.wg == s.wg + (if Owed(s'.tasks[id]) then 1 else 0) - (if id in s.tasks && Owed(s.tasks[id]) then 1 else 0)
    requires TaskInv(s', id)
    ensures Inv(s')
  {
    OwedStep(s, s', id);
    forall o | o in s'.tasks && o != id
      ensures TaskInv(s', o)
    {
      assert TaskInv(s, o);
    }
    forall o | o in s'.closers
      ensures CloserInv(s', o)
    {
      assert CloserInv(s, o);
    }
  }

  lemma CloserStepKeeps(s: State, s': State, id: nat)
    requires Inv(s) && id in s'.closers && s'.closers == s.closers[id := s'.closers[id]]
    requires s'.tasks == s.tasks && s'.wg == s.wg && s'.starts == s.starts
    requires s'.mutex == s.mutex || s.mutex == Some(ByCloser(id)) || s'.mutex == Some(ByCloser(id))
    requires s'.mutex == s.mutex || s'.mutex.None? || s.mutex.None?
    requires s.closed ==> s'.closed
    requires s'.closed && !s.closed ==> s.mutex == Some(ByCloser(id))
    requires s'.once == s.once || (s.once.Free? && s'.once == Busy(id)) || (s.once == Busy(id) && s'.once.Finished? && s.wg == 0)
    requires s'.once.Finished? ==> s'.closed
    requires s'.once.Free? ==> !s'.closed
    requires s'.once == Busy(id) ==> Closing(s'.closers[id])
    requires CloserInv(s', id)
    ensures Inv(s')
  {
    assert OwedIds(s') == OwedIds(s);
    forall o | o in s'.closers && o != id
      ensures CloserInv(s', o)
    {
      assert CloserInv(s, o);
    }
    forall o | o in s'.tasks
      ensures TaskInv(s', o)
    {
      assert TaskInv(s, o);
      assert Owed(s.tasks[o]) ==> o in OwedIds(s);
    }
  }

  lemma OwedStep(s: State, s': State, id: nat)
    requires id in s'.tasks && s'.tasks == s.tasks[id := s'.tasks[id]]
    ensures OwedIds(s') == if Owed(s'.tasks[id]) then OwedIds(s) + {id} else OwedIds(s) - {id}
    ensures id in OwedIds(s) <==> id in s.tasks && Owed(s.tasks[id])
  {
  }

  predicate OfTask(step: Step) {
    step.Call? || step.LockTask? || step.Decide? || step.UnlockTask? || step.Begin? || step.End? || step.Finish?
  }

  lemma StepOfTaskKeeps(s: State, step: Step)
    requires Inv(s) && Enabled(s, step) && OfTask(step)
    ensures Inv(Apply(s, step))
  {
    var s', id := Apply(s, step), step.id;
    assert id in s.tasks ==> TaskInv(s, id);
    TaskStepKeeps(s, s', id);
  }

  lemma StepOfCloserKeeps(s: State, step: Step)
    requires Inv(s) && Enabled(s, step) && !OfTask(step)
    ensures Inv(Apply(s, step))
  {
    var s', id := Apply(s, step), step.id;
    assert id in s.closers ==> CloserInv(s, id);
    CloserStepKeeps(s, s', id);
  }

  lemma StepKeeps(s: State, step: Step)
    requires Inv(s) && Enabled(s, step)
    ensures Inv(Apply(s, step))
  {
    if OfTask(step) {
      StepOfTaskKeeps(s, step);
    } else {
      StepOfCloserKeeps(s, step);
    }
  }

  lemma {:induction false} RunKeeps(steps: seq<Step>)
    requires Run(steps).Some?
    ensures Inv(Run(steps).value)
  {
    if steps == [] {
    } else {
      var n := |steps| - 1;
      RunKeeps(steps[..n]);
      StepKeeps(Run(steps[..n]).value, steps[n]);
    }
  }

  /** The wait group never goes negative, and its count is the number of
      accepted tasks that have not finished. */
  lemma WaitGroupCountsTasks(steps: seq<Step>)
    requires Run(steps).Some?
    ensures Run(steps).value.wg == |OwedIds(Run(steps).value)| >= 0
  {
    RunKeeps(steps);
  }

  /** Once any Close has returned, in every interleaving, each DoAsync call
      ever made either was refused, or has run its task exactly once to its end,
      or has not yet taken the mutex, and then it will be refused. */
  lemma CloseWaitsForAll(steps: seq<Step>, closer: nat, id: nat)
    requires Run(steps).Some?
    requires IsCloser(Run(steps).value, closer, Returned) && id in Run(steps).value.tasks
    ensures var s := Run(steps).value; var t := s.tasks[id];
      && (t.Done? || t.Refused? || t.Invalid? || t.Calling? || t.Locked?)
      && Starts(s, id) == (if t.Done? then 1 else 0)
      && (t.Locked? ==> Apply(s, Decide(id)).tasks[id] == Refused)
  {
    RunKeeps(steps);
    assert CloserInv(Run(steps).value, closer);
    assert TaskInv(Run(steps).value, id);
  }

  /** A closed executor stays closed. */
  lemma {:induction false} ClosedForGood(steps: seq<Step>, n: nat)
    requires n <= |steps| && Run(steps).Some?
    ensures Run(steps[..n]).Some? && (Run(steps[..n]).value.closed ==> Run(steps).value.closed)
  {
    if n == |steps| {
      assert steps[..n] == steps;
    } else {
      assert steps[..|steps| - 1][..n] == steps[..n];
      ClosedForGood(steps[..|steps| - 1], n);
    }
  }

  /** A DoAsync called after a Close returned is refused whenever it decides. */
  lemma LateCallsAreRefused(steps: seq<Step>, n: nat, closer: nat, id: nat)
    requires n <= |steps| && Run(steps).Some? && Run(steps[..n]).Some?
    requires IsCloser(Run(steps[..n]).value, closer, Returned) && id !in Run(steps[..n]).value.tasks
    requires IsTask(Run(steps).value, id, Locked)
    ensures Apply(Run(steps).value, Decide(id)).tasks[id] == Refused
  {
    RunKeeps(steps[..n]);
    assert CloserInv(Run(steps[..n]).value, closer);
    ClosedForGood(steps, n);
  }

  // What decides a call.

  ghost predicate ClosedBy(steps: seq<Step>) {
    exists i :: 0 <= i < |steps| && steps[i].SetClosed?
  }

  lemma {:induction false} ClosedIff(steps: seq<Step>)
    requires Run(steps).Some?
    ensures Run(steps).value.closed <==> ClosedBy(steps)
  {
    if steps == [] {
    } else {
      var n := |steps| - 1;
      ClosedIff(steps[..n]);
      assert steps == steps[..n] + [steps[n]];
      assert steps[n].SetClosed? || (ClosedBy(steps) <==> ClosedBy(steps[..n]));
    }
  }

  lemma DecidedStep(s: State, step: Step, id: nat)
    requires Enabled(s, step) && id in s.tasks
    ensures id in Apply(s, step).tasks
    ensures s.tasks[id].Refused? ==> Apply(s, step).tasks[id].Refused?
    ensures Owed(s.tasks[id]) || s.tasks[id].Done? ==> Owed(Apply(s, step).tasks[id]) || Apply(s, step).tasks[id].Done?
  {
  }

  /** A call is refused if and only if the executor was closed when it looked;
      otherwise its task is on its way or done. */
  lemma {:induction false} RefusedIffClosed(steps: seq<Step>, j: nat, id: nat)
    requires j < |steps| && steps[j] == Decide(id) && Run(steps).Some?
    ensures id in Run(steps).value.tasks
    ensures var t := Run(steps).value.tasks[id];
      if ClosedBy(steps[..j]) then t.Refused? else Owed(t) || t.Done?
  {
    var n := |steps| - 1;
    if j == n {
      ClosedIff(steps[..j]);
    } else {
      assert steps[..n][..j] == steps[..j];
      RefusedIffClosed(steps[..n], j, id);
      DecidedStep(Run(steps[..n]).value, steps[n], id);
    }
  }

  ghost predicate CalledNil(steps: seq<Step>, id: nat) {
    exists j :: 0 <= j < |steps| && steps[j] == Call(id, true)
  }

  lemma InvalidStep(s: State, step: Step, id: nat)
    requires Enabled(s, step)
    ensures IsTask(Apply(s, step), id, Invalid) <==> IsTask(s, id, Invalid) || step == Call(id, true)
  {
  }

  /** A call is invalid if and only if it was made with a nil fn. */
  lemma {:induction false} InvalidIffNil(steps: seq<Step>, id: nat)
    requires Run(steps).Some?
    ensures CalledNil(steps, id) <==> IsTask(Run(steps).value, id, Invalid)
  {
    if steps == [] {
    } else {
      var n := |steps| - 1;
      InvalidIffNil(steps[..n], id);
      InvalidStep(Run(steps[..n]).value, steps[n], id);
      assert steps == steps[..n] + [steps[n]];
      assert steps[n] == Call(id, true) || (CalledNil(steps, id) <==> CalledNil(steps[..n], id));
    }
  }

  // Nothing gets stuck.

  /** `more` leads from the end of `steps` to s. */
  ghost predicate Leads(steps: seq<Step>, more: seq<Step>, s: State) {
    Run(steps + more) == Some(s) && Inv(s)
  }

  lemma Extend(steps: seq<Step>, more: seq<Step>, s: State, step: Step) returns (more': seq<Step>, s': State)
    requires Leads(steps, more, s) && Enabled(s, step)
    ensures Leads(steps, more', s') && s' == Apply(s, step)
  {
    more', s' := more + [step], Apply(s, step);
    assert (steps + more')[..|steps + more|] == steps + more && (steps + more')[|steps + more|] == step;
    StepKeeps(s, step);
  }

  lemma FinishTask(steps: seq<Step>, more: seq<Step>, s: State, id: nat) returns (more': seq<Step>, s': State)
    requires Leads(steps, more, s) && id in s.tasks && (s.tasks[id].Accepted? || s.tasks[id].Running? || s.tasks[id].Ended?)
    ensures Leads(steps, more', s') && s'.tasks == s.tasks[id := Done] && s'.wg == s.wg - 1
    ensures s'.closers == s.closers && s'.mutex == s.mutex && s'.once == s.once
  {
    more', s' := more, s;
    if s'.tasks[id].Accepted? {
      more', s' := Extend(steps, more', s', Begin(id));
    }
    if s'.tasks[id].Running? {
      more', s' := Extend(steps, more', s', End(id, false));
    }
    more', s' := Extend(steps, more', s', Finish(id));
  }

  /** From every reachable state an accepted task can run once to its end. */
  lemma AcceptedCanFinish(steps: seq<Step>, id: nat) returns (more: seq<Step>)
    requires Run(steps).Some? && id in Run(steps).value.tasks && Owed(Run(steps).value.tasks[id])
    ensures Run(steps + more).Some? && IsTask(Run(steps + more).value, id, Done) && Starts(Run(steps + more).value, id) == 1
  {
    RunKeeps(steps);
    assert steps + [] == steps;
    var s;
    more, s := [], Run(steps).value;
    if s.tasks[id].Added? {
      more, s := Extend(steps, more, s, UnlockTask(id));
    }
    more, s := FinishTask(steps, more, s, id);
    assert TaskInv(s, id);
  }

  lemma {:induction false} FinishAll(steps: seq<Step>, more: seq<Step>, s: State) returns (more': seq<Step>, s': State)
    requires Leads(steps, more, s) && s.mutex.None?
    ensures Leads(steps, more', s') && s'.wg == 0
    ensures s'.closers == s.closers && s'.mutex == s.mutex && s'.once == s.once
    decreases s.wg
  {
    if OwedIds(s) == {} {
      more', s' := more, s;
    } else {
      var id :| id in OwedIds(s);
      assert TaskInv(s, id);
      more', s' := FinishTask(steps, more, s, id);
      more', s' := FinishAll(steps, more', s');
    }
  }

  /** Whoever holds the mutex can let go of it. */
  lemma FreeMutex(steps: seq<Step>, more: seq<Step>, s: State) returns (more': seq<Step>, s': State)
    requires Leads(steps, more, s)
    ensures Leads(steps, more', s') && s'.mutex.None? && s'.once == s.once && s'.closers.Keys == s.closers.Keys
    ensures forall c :: c in s.closers ==> s'.closers[c] == if s.closers[c].HasMutex? then Waiting else s.closers[c]
  {
    more', s' := more, s;
    assert forall c :: c in s.closers ==> CloserInv(s, c);
    if s.mutex.Some? && s.mutex.value.ByCloser? {
      more', s' := Extend(steps, more', s', SetClosed(s.mutex.value.id));
    } else if s.mutex.Some? {
      var id := s.mutex.value.id;
      assert TaskInv(s, id);
      if s.tasks[id].Locked? {
        more', s' := Extend(steps, more', s', Decide(id));
      }
      if s'.mutex.Some? {
        more', s' := Extend(steps, more', s', UnlockTask(id));
      }
    }
  }

  /** The Close inside closeOnce.Do can return. */
  lemma WinnerReturns(steps: seq<Step>, more: seq<Step>, s: State, w: nat) returns (more': seq<Step>, s': State)
    requires Leads(steps, more, s) && s.once == Busy(w)
    ensures Leads(steps, more', s') && s'.once.Finished? && IsCloser(s', w, Returned)
    ensures forall c :: c in s.closers && c != w ==> c in s'.closers && s'.closers[c] == s.closers[c]
  {
    assert forall c :: c in s.closers ==> CloserInv(s, c);
    more', s' := FreeMutex(steps, more, s);
    if s'.closers[w].WantsMutex? {
      more', s' := Extend(steps, more', s', LockCloser(w));
      more', s' := Extend(steps, more', s', SetClosed(w));
    }
    more', s' := FinishAll(steps, more', s');
    more', s' := Extend(steps, more', s', StopWaiting(w));
  }

  /** From every reachable state every Close can return: no interleaving of
      mutex, once and wait group leaves it stuck. */
  lemma CloseCanReturn(steps: seq<Step>, id: nat) returns (more: seq<Step>)
    requires Run(steps).Some? && id in Run(steps).value.closers
    ensures Run(steps + more).Some? && IsCloser(Run(steps + more).value, id, Returned)
  {
    RunKeeps(steps);
    assert steps + [] == steps;
    var s;
    more, s := [], Run(steps).value;
    assert CloserInv(s, id);
    if s.closers[id].Entering? && s.once.Free? {
      more, s := Extend(steps, more, s, EnterOnce(id));
    }
    if s.once.Busy? {
      assert CloserInv(s, id);
      more, s := WinnerReturns(steps, more, s, s.once.winner);
    }
    if s.closers[id].Entering? {
      more, s := Extend(steps, more, s, LeaveOnce(id));
    }
    assert CloserInv(s, id);
  }
}
