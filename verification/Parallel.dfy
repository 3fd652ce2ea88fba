/** internal/adapter/executor/service.go:102-165: DoParallel's goroutines, its
    buffered error channel, and the caller that waits for them or for the
    context. */
module Parallel {
  import opened Sets
  import opened Wrappers

  /** What a goroutine sends: nil, its task's error, the context's error, or a
      recovered panic. */
  datatype Outcome = Nil | TaskError(code: int) | ContextError | Panicked

  /** A goroutine: not started, in Execute, about to send, sent, or past wg.Done. */
  datatype Task = Ready | Executing | Sending(o: Outcome) | Sent(o: Outcome) | Finished(o: Outcome)

  /** The caller: in the select, draining the closed channel, or returned. */
  datatype Caller = Selecting | Draining | Returned(err: Outcome)

  /** `sends` records every send, by task; `taken` how many the caller drained. */
  datatype State = State(tasks: seq<Task>, caller: Caller, buffer: seq<Outcome>, chanClosed: bool, done: bool, cancelled: bool,
                         sends: seq<(nat, Outcome)>, taken: nat)

  datatype Step =
    | Cancel
    | Start(i: nat)                    // the select on taskCtx.Done
    | Execute(i: nat, o: Outcome)      // Execute returned or panicked
    | Send(i: nat)
    | WaitGroupDone(i: nat)
    | CloseDone                        // wg.Wait returned
    | TakeDone | TakeCancel            // the caller's select
    | Drain

  function Init(n: nat): State {
    State(seq(n, _ => Ready), if n == 0 then Returned(Nil) else Selecting, [], false, false, false, [], 0)
  }

  predicate AllFinished(s: State) {
    forall i :: 0 <= i < |s.tasks| ==> s.tasks[i].Finished?
  }

  /** A send is enabled when the goroutine wants to send; whether the channel
      takes it is a theorem, not an assumption. */
  predicate Enabled(s: State, step: Step) {
    match step
    case Cancel => true
    case Start(i) => i < |s.tasks| && s.tasks[i].Ready?
    case Execute(i, o) => i < |s.tasks| && s.tasks[i].Executing? && o != ContextError
    case Send(i) => i < |s.tasks| && s.tasks[i].Sending?
    case WaitGroupDone(i) => i < |s.tasks| && s.tasks[i].Sent?
    case CloseDone => !s.done && AllFinished(s)
    case TakeDone => s.caller.Selecting? && s.done
    case TakeCancel => s.caller.Selecting? && s.cancelled
    case Drain => s.caller.Draining?
  }

  function Apply(s: State, step: Step): State
    requires Enabled(s, step)
  {
    match step
    case Cancel => s.(cancelled := true)
    case Start(i) => s.(tasks := s.tasks[i := if s.cancelled then Sending(ContextError) else Executing])
    case Execute(i, o) => s.(tasks := s.tasks[i := Sending(o)])
    case Send(i) =>
      var o := s.tasks[i].o;
      s.(tasks := s.tasks[i := Sent(o)], buffer := s.buffer + [o], sends := s.sends + [(i, o)])
    case WaitGroupDone(i) => s.(tasks := s.tasks[i := Finished(s.tasks[i].o)])
    case CloseDone => s.(done := true)
    case TakeDone => s.(caller := Draining, chanClosed := true)
    case TakeCancel => s.(caller := Returned(ContextError))
    case Drain =>
      if s.buffer == [] then s.(caller := Returned(Nil))
      else
        s.(buffer := s.buffer[1..], taken := s.taken + 1,
           caller := if s.buffer[0].Nil? then Draining else Returned(s.buffer[0]))
  }

  function Run(n: nat, steps: seq<Step>): Option<State> {
    if steps == [] then Some(Init(n))
    else
      var before := Run(n, steps[..|steps| - 1]);
      var step := steps[|steps| - 1];
      if before.Some? && Enabled(before.value, step) then Some(Apply(before.value, step)) else None
  }

  // The invariant.

  predicate HasSent(t: Task) {
    t.Sent? || t.Finished?
  }

  ghost function SentIds(s: State): set<nat> {
    set i: nat | i < |s.tasks| && HasSent(s.tasks[i])
  }

  /** The sends so far are exactly one for each task that has sent. */
  ghost predicate SendsInv(s: State) {
    && (forall k :: 0 <= k < |s.sends| ==> s.sends[k].0 < |s.tasks| && HasSent(s.tasks[s.sends[k].0]) && s.tasks[s.sends[k].0].o == s.sends[k].1)
    && (forall k, l :: 0 <= k < l < |s.sends| ==> s.sends[k].0 != s.sends[l].0)
    && |s.sends| == |SentIds(s)|
  }

  /** The caller returned the first error that was sent. */
  ghost predicate FirstError(s: State) {
    && s.caller.Returned? && 0 < s.taken <= |s.sends| && s.sends[s.taken - 1].1 == s.caller.err
    && forall k :: 0 <= k < s.taken - 1 ==> s.sends[k].1.Nil?
  }

  /** The channel holds the sends the caller has not drained; those drained
      before the last were nil. */
  ghost predicate BufferInv(s: State) {
    && s.taken + |s.buffer| == |s.sends|
    && (forall k :: 0 <= k < |s.buffer| ==> s.buffer[k] == s.sends[s.taken + k].1)
    && (s.caller.Selecting? ==> s.taken == 0 && !s.chanClosed)
    && (s.caller.Draining? ==> s.done && s.chanClosed && forall k :: 0 <= k < s.taken ==> s.sends[k].1.Nil?)
    && (s.caller == Returned(Nil) ==> AllFinished(s) && s.buffer == [] && forall k :: 0 <= k < s.taken ==> s.sends[k].1.Nil?)
    && (s.caller.Returned? && !s.caller.err.Nil? && s.chanClosed ==> FirstError(s))
    && (s.caller.Returned? && !s.chanClosed && |s.tasks| > 0 ==> s.caller.err == ContextError && s.cancelled)
    && (s.done ==> AllFinished(s))
    && (s.chanClosed ==> s.done)
  }

  ghost predicate Inv(n: nat, s: State) {
    |s.tasks| == n && SendsInv(s) && BufferInv(s)
  }

  lemma {:induction false} RangeSize(a: set<nat>, n: nat)
    requires forall i :: i in a ==> i < n
    ensures |a| <= n
    ensures |a| == n ==> forall i :: 0 <= i < n ==> i in a
    decreases n
  {
    if n == 0 {
      assert a == {};
    } else {
      var b := a - {n - 1};
      RangeSize(b, n - 1);
      assert a == if n - 1 in a then b + {n - 1} else b;
    }
  }

  lemma SendKeepsSends(s: State, i: nat)
    requires SendsInv(s) && Enabled(s, Send(i))
    ensures SendsInv(Apply(s, Send(i)))
  {
    var s' := Apply(s, Send(i));
    assert SentIds(s') == SentIds(s) + {i};
    assert i !in SentIds(s);
  }

  lemma SendKeepsBuffer(s: State, i: nat)
    requires BufferInv(s) && Enabled(s, Send(i))
    ensures BufferInv(Apply(s, Send(i)))
  {
    assert !AllFinished(s);
  }

  lemma SendKeeps(n: nat, s: State, i: nat)
    requires Inv(n, s) && Enabled(s, Send(i))
    ensures Inv(n, Apply(s, Send(i)))
  {
    SendKeepsSends(s, i);
    SendKeepsBuffer(s, i);
  }

  lemma TaskKeeps(n: nat, s: State, step: Step)
    requires Inv(n, s) && Enabled(s, step) && (step.Start? || step.Execute? || step.WaitGroupDone?)
    ensures Inv(n, Apply(s, step))
  {
    var s' := Apply(s, step);
    assert SentIds(s') == SentIds(s);
    assert !AllFinished(s);
  }

  lemma SendsFrame(s: State, s': State)
    requires SendsInv(s) && s'.tasks == s.tasks && s'.sends == s.sends
    ensures SendsInv(s')
  {
    assert SentIds(s') == SentIds(s);
  }

  lemma DrainKeepsBuffer(s: State)
    requires BufferInv(s) && Enabled(s, Drain)
    ensures BufferInv(Apply(s, Drain))
  {
    if s.buffer != [] {
      var s' := Apply(s, Drain);
      assert s.buffer[0] == s.sends[s.taken].1;
      assert forall k :: 0 <= k < |s'.buffer| ==> s'.buffer[k] == s.buffer[k + 1];
    }
  }

  lemma DrainKeeps(n: nat, s: State)
    requires Inv(n, s) && Enabled(s, Drain)
    ensures Inv(n, Apply(s, Drain))
  {
    SendsFrame(s, Apply(s, Drain));
    DrainKeepsBuffer(s);
  }

  lemma CallerKeeps(n: nat, s: State, step: Step)
    requires Inv(n, s) && Enabled(s, step) && (step.Cancel? || step.CloseDone? || step.TakeDone? || step.TakeCancel?)
    ensures Inv(n, Apply(s, step))
  {
    SendsFrame(s, Apply(s, step));
    CallerKeepsBuffer(s, step);
  }

  lemma CallerKeepsBuffer(s: State, step: Step)
    requires BufferInv(s) && Enabled(s, step) && (step.Cancel? || step.CloseDone? || step.TakeDone? || step.TakeCancel?)
    ensures BufferInv(Apply(s, step))
  {
  }

  lemma StepKeeps(n: nat, s: State, step: Step)
    requires Inv(n, s) && Enabled(s, step)
    ensures Inv(n, Apply(s, step))
  {
    if step.Send? {
      SendKeeps(n, s, step.i);
    } else if step.Start? || step.Execute? || step.WaitGroupDone? {
      TaskKeeps(n, s, step);
    } else if step.Drain? {
      DrainKeeps(n, s);
    } else {
      CallerKeeps(n, s, step);
    }
  }

  lemma {:induction false} RunKeeps(n: nat, steps: seq<Step>)
    requires Run(n, steps).Some?
    ensures Inv(n, Run(n, steps).value)
  {
    if steps == [] {
      assert SentIds(Init(n)) == {};
    } else {
      var k := |steps| - 1;
      RunKeeps(n, steps[..k]);
      StepKeeps(n, Run(n, steps[..k]).value, steps[k]);
    }
  }

  /** In every schedule, with panics and cancellation, a goroutine about to
      send finds room in the channel and finds it open, also after the caller
      has returned early. */
  lemma NoSendBlocksOrFollowsClose(n: nat, steps: seq<Step>, i: nat)
    requires Run(n, steps).Some? && Enabled(Run(n, steps).value, Send(i))
    ensures |Run(n, steps).value.buffer| < n && !Run(n, steps).value.chanClosed
  {
    RunKeeps(n, steps);
    var s := Run(n, steps).value;
    assert i !in SentIds(s);
    RangeSize(SentIds(s), n);
  }

  /** Each task sends at most once in every schedule, and exactly once, with
      its own outcome, by the time its goroutine ends. */
  lemma EachSendsOnce(n: nat, steps: seq<Step>, i: nat)
    requires Run(n, steps).Some? && i < n
    ensures var s := Run(n, steps).value;
      && |s.tasks| == n
      && (forall k, l :: 0 <= k < l < |s.sends| ==> !(s.sends[k].0 == i && s.sends[l].0 == i))
      && (HasSent(s.tasks[i]) <==> exists k :: 0 <= k < |s.sends| && s.sends[k].0 == i)
      && (forall k :: 0 <= k < |s.sends| && s.sends[k].0 == i ==> HasSent(s.tasks[i]) && s.sends[k].1 == s.tasks[i].o)
  {
    RunKeeps(n, steps);
    SendersCover(Run(n, steps).value);
    var s := Run(n, steps).value;
    if HasSent(s.tasks[i]) {
      assert i in SentIds(s);
    }
  }

  lemma {:induction false} DistinctSize(sends: seq<(nat, Outcome)>)
    requires forall k, l :: 0 <= k < l < |sends| ==> sends[k].0 != sends[l].0
    ensures |set k: nat | k < |sends| :: sends[k].0| == |sends|
  {
    if sends == [] {
    } else {
      var m := |sends| - 1;
      DistinctSize(sends[..m]);
      var ids := set k: nat | k < m :: sends[..m][k].0;
      assert (set k: nat | k < |sends| :: sends[k].0) == ids + {sends[m].0};
    }
  }

  lemma SendersCover(s: State)
    requires SendsInv(s)
    ensures forall i :: i in SentIds(s) ==> exists k :: 0 <= k < |s.sends| && s.sends[k].0 == i
  {
    var ids := set k: nat | k < |s.sends| :: s.sends[k].0;
    DistinctSize(s.sends);
    SameSize(ids, SentIds(s));
  }

  lemma NilAtTheEnd(n: nat, s: State)
    requires Inv(n, s) && s.caller == Returned(Nil)
    ensures forall i :: 0 <= i < n ==> s.tasks[i] == Finished(Nil)
  {
    SendersCover(s);
    forall i | 0 <= i < n
      ensures s.tasks[i] == Finished(Nil)
    {
      assert i in SentIds(s);
      var k :| 0 <= k < |s.sends| && s.sends[k].0 == i;
    }
  }

  /** DoParallel returns nil only if every task ran and returned nil; after
      waiting for all, it returns the first error that was sent, if any. */
  lemma NilMeansAllNil(n: nat, steps: seq<Step>)
    requires Run(n, steps).Some? && Run(n, steps).value.caller.Returned?
    ensures var s := Run(n, steps).value;
      && (s.caller.err.Nil? ==> forall i :: 0 <= i < n ==> i < |s.tasks| && s.tasks[i] == Finished(Nil))
      && (!s.caller.err.Nil? && s.chanClosed ==> FirstError(s) && exists i :: 0 <= i < |s.tasks| && s.tasks[i] == Finished(s.caller.err))
  {
    RunKeeps(n, steps);
    var s := Run(n, steps).value;
    if s.caller.err.Nil? {
      NilAtTheEnd(n, s);
    } else if s.chanClosed {
      assert s.tasks[s.sends[s.taken - 1].0] == Finished(s.caller.err);
    }
  }

  // Where outcomes come from.

  ghost predicate Cancelled(steps: seq<Step>) {
    exists a :: 0 <= a < |steps| && steps[a].Cancel?
  }

  ghost predicate LateAt(steps: seq<Step>, i: nat, j: nat) {
    j < |steps| && steps[j] == Start(i) && Cancelled(steps[..j])
  }

  /** Task i found the context done when it started. */
  ghost predicate StartedLate(steps: seq<Step>, i: nat) {
    exists j: nat :: LateAt(steps, i, j)
  }

  /** Execute of task i returned, or panicked, with outcome o. */
  ghost predicate Executed(steps: seq<Step>, i: nat, o: Outcome) {
    exists j :: 0 <= j < |steps| && steps[j] == Execute(i, o)
  }

  lemma CancelledGrows(steps: seq<Step>, step: Step)
    ensures Cancelled(steps + [step]) <==> Cancelled(steps) || step.Cancel?
  {
    var all := steps + [step];
    assert all[|steps|] == step;
    if Cancelled(steps) {
      var a :| 0 <= a < |steps| && steps[a].Cancel?;
      assert all[a].Cancel?;
    }
  }

  lemma StartedLateGrows(steps: seq<Step>, step: Step, i: nat)
    ensures StartedLate(steps + [step], i) <==> StartedLate(steps, i) || (step == Start(i) && Cancelled(steps))
  {
    var all := steps + [step];
    forall j: nat
      ensures LateAt(all, i, j) <==> LateAt(steps, i, j) || (j == |steps| && step == Start(i) && Cancelled(steps))
    {
      if j <= |steps| {
        assert all[..j] == steps[..j];
      }
      assert steps[..|steps|] == steps;
    }
    assert LateAt(all, i, |steps|) <==> step == Start(i) && Cancelled(steps);
  }

  lemma ExecutedGrows(steps: seq<Step>, step: Step, i: nat, o: Outcome)
    ensures Executed(steps + [step], i, o) <==> Executed(steps, i, o) || step == Execute(i, o)
  {
    var all := steps + [step];
    assert all[|steps|] == step;
    if Executed(steps, i, o) {
      var j :| 0 <= j < |steps| && steps[j] == Execute(i, o);
      assert all[j] == Execute(i, o);
    }
  }

  /** What the steps say of task i at its stage: it carries the context's
      error if it started late, and else what its Execute gave. */
  ghost predicate OriginOf(steps: seq<Step>, t: Task, i: nat) {
    match t
    case Ready => !StartedLate(steps, i) && forall o :: !Executed(steps, i, o)
    case Executing => !StartedLate(steps, i) && forall o :: !Executed(steps, i, o)
    case Sending(p) => CarriedIs(steps, i, p)
    case Sent(p) => CarriedIs(steps, i, p)
    case Finished(p) => CarriedIs(steps, i, p)
  }

  ghost predicate CarriedIs(steps: seq<Step>, i: nat, p: Outcome) {
    if StartedLate(steps, i) then p == ContextError && forall o :: !Executed(steps, i, o)
    else p != ContextError && forall o :: Executed(steps, i, o) <==> o == p
  }

  lemma CarriedStep(steps: seq<Step>, step: Step, i: nat, p: Outcome)
    requires CarriedIs(steps, i, p) && step != Start(i) && forall o :: step != Execute(i, o)
    ensures CarriedIs(steps + [step], i, p)
  {
    StartedLateGrows(steps, step, i);
    forall o
      ensures Executed(steps + [step], i, o) <==> Executed(steps, i, o)
    {
      ExecutedGrows(steps, step, i, o);
    }
  }

  lemma EarlyStep(steps: seq<Step>, step: Step, i: nat)
    requires !StartedLate(steps, i) && forall o :: !Executed(steps, i, o)
    ensures StartedLate(steps + [step], i) <==> step == Start(i) && Cancelled(steps)
    ensures forall o :: Executed(steps + [step], i, o) <==> step == Execute(i, o)
  {
    StartedLateGrows(steps, step, i);
    forall o
      ensures Executed(steps + [step], i, o) <==> step == Execute(i, o)
    {
      ExecutedGrows(steps, step, i, o);
    }
  }

  lemma OriginStep(steps: seq<Step>, s: State, step: Step, i: nat)
    requires i < |s.tasks| && OriginOf(steps, s.tasks[i], i) && Enabled(s, step) && (s.cancelled <==> Cancelled(steps))
    ensures |Apply(s, step).tasks| == |s.tasks| && OriginOf(steps + [step], Apply(s, step).tasks[i], i)
  {
    if s.tasks[i].Ready? || s.tasks[i].Executing? {
      EarlyStep(steps, step, i);
    } else {
      CarriedStep(steps, step, i, s.tasks[i].o);
    }
  }

  lemma CancelledStep(s: State, step: Step)
    requires Enabled(s, step)
    ensures Apply(s, step).cancelled <==> s.cancelled || step.Cancel?
  {
  }

  lemma {:induction false} CancelledIff(n: nat, steps: seq<Step>)
    requires Run(n, steps).Some?
    ensures Run(n, steps).value.cancelled <==> Cancelled(steps)
  {
    if steps == [] {
    } else {
      var k := |steps| - 1;
      CancelledIff(n, steps[..k]);
      assert steps == steps[..k] + [steps[k]];
      CancelledStep(Run(n, steps[..k]).value, steps[k]);
      CancelledGrows(steps[..k], steps[k]);
    }
  }

  lemma {:induction false} Origin(n: nat, steps: seq<Step>, i: nat)
    requires Run(n, steps).Some? && i < n
    ensures |Run(n, steps).value.tasks| == n && OriginOf(steps, Run(n, steps).value.tasks[i], i)
  {
    if steps == [] {
    } else {
      var k := |steps| - 1;
      Origin(n, steps[..k], i);
      assert steps == steps[..k] + [steps[k]];
      CancelledIff(n, steps[..k]);
      OriginStep(steps[..k], Run(n, steps[..k]).value, steps[k], i);
    }
  }

  /** Every send carries what the task's own Execute gave, or the context's
      error if the context was done when the task started. */
  lemma SendCarriesOutcome(n: nat, steps: seq<Step>, k: nat)
    requires Run(n, steps).Some? && k < |Run(n, steps).value.sends|
    ensures var (i, o) := Run(n, steps).value.sends[k];
      i < n && if StartedLate(steps, i) then o == ContextError else o != ContextError && forall p :: Executed(steps, i, p) <==> p == o
  {
    RunKeeps(n, steps);
    Origin(n, steps, Run(n, steps).value.sends[k].0);
  }

  /** Without a cancel, and with every Execute returning nil, DoParallel
      returns nil. */
  lemma AllNilReturnsNil(n: nat, steps: seq<Step>)
    requires Run(n, steps).Some? && Run(n, steps).value.caller.Returned? && !Cancelled(steps)
    requires forall i: nat, o :: Executed(steps, i, o) ==> o.Nil?
    ensures Run(n, steps).value.caller.err.Nil?
  {
    RunKeeps(n, steps);
    CancelledIff(n, steps);
    var s := Run(n, steps).value;
    if s.chanClosed && FirstError(s) {
      var k := s.taken - 1;
      SendCarriesOutcome(n, steps, k);
      NotCancelledNotLate(steps, s.sends[k].0);
      assert Executed(steps, s.sends[k].0, s.sends[k].1);
    } else if n == 0 {
      NoTasks(steps);
    }
  }

  lemma NotCancelledNotLate(steps: seq<Step>, i: nat)
    requires !Cancelled(steps)
    ensures !StartedLate(steps, i)
  {
    assert forall j, a :: 0 <= a < j <= |steps| ==> steps[..j][a] == steps[a];
  }

  /** DoParallel of no tasks returns nil at once. */
  lemma {:induction false} NoTasks(steps: seq<Step>)
    requires Run(0, steps).Some?
    ensures Run(0, steps).value.caller == Returned(Nil)
  {
    if steps == [] {
    } else {
      NoTasks(steps[..|steps| - 1]);
    }
  }

  /** An error returned is what some Execute gave, or the context's after a
      cancel; returned early, it is the context's. */
  lemma ErrorHasOrigin(n: nat, steps: seq<Step>)
    requires Run(n, steps).Some? && Run(n, steps).value.caller.Returned? && !Run(n, steps).value.caller.err.Nil?
    ensures var s := Run(n, steps).value;
      if s.caller.err == ContextError then Cancelled(steps) else s.chanClosed && exists i: nat :: Executed(steps, i, s.caller.err)
  {
    RunKeeps(n, steps);
    CancelledIff(n, steps);
    var s := Run(n, steps).value;
    if n == 0 {
      NoTasks(steps);
    } else if s.chanClosed {
      var (i, o) := s.sends[s.taken - 1];
      SendCarriesOutcome(n, steps, s.taken - 1);
      if !Cancelled(steps) {
        NotCancelledNotLate(steps, i);
      }
      assert o != ContextError ==> Executed(steps, i, o);
    }
  }

  // Nothing gets stuck.

  /** `more` leads from the end of `steps` to s. */
  ghost predicate Leads(n: nat, steps: seq<Step>, more: seq<Step>, s: State) {
    Run(n, steps + more) == Some(s) && Inv(n, s)
  }

  lemma Extend(n: nat, steps: seq<Step>, more: seq<Step>, s: State, step: Step) returns (more': seq<Step>, s': State)
    requires Leads(n, steps, more, s) && Enabled(s, step)
    ensures Leads(n, steps, more', s') && s' == Apply(s, step)
  {
    more', s' := more + [step], Apply(s, step);
    assert (steps + more')[..|steps + more|] == steps + more && (steps + more')[|steps + more|] == step;
    StepKeeps(n, s, step);
  }

  /** s' is s but for task i, which is finished, and what it sent. */
  ghost predicate TaskDone(n: nat, s: State, s': State, i: nat) {
    && |s.tasks| == |s'.tasks| == n && i < n && s'.caller == s.caller && s'.done == s.done && s'.tasks[i].Finished?
    && forall j :: 0 <= j < n && j != i ==> s'.tasks[j] == s.tasks[j]
  }

  lemma FinishSending(n: nat, steps: seq<Step>, more: seq<Step>, s: State, i: nat) returns (more': seq<Step>, s': State)
    requires Leads(n, steps, more, s) && i < n && s.tasks[i].Sending?
    ensures Leads(n, steps, more', s') && TaskDone(n, s, s', i)
  {
    more', s' := Extend(n, steps, more, s, Send(i));
    more', s' := Extend(n, steps, more', s', WaitGroupDone(i));
  }

  lemma FinishTask(n: nat, steps: seq<Step>, more: seq<Step>, s: State, i: nat) returns (more': seq<Step>, s': State)
    requires Leads(n, steps, more, s) && i < n
    ensures Leads(n, steps, more', s') && TaskDone(n, s, s', i)
  {
    match s.tasks[i]
    case Ready =>
      more', s' := Extend(n, steps, more, s, Start(i));
      if s'.tasks[i].Executing? {
        more', s' := Extend(n, steps, more', s', Execute(i, Nil));
      }
      more', s' := FinishSending(n, steps, more', s', i);
    case Executing =>
      more', s' := Extend(n, steps, more, s, Execute(i, Nil));
      more', s' := FinishSending(n, steps, more', s', i);
    case Sending(_) => more', s' := FinishSending(n, steps, more, s, i);
    case Sent(_) => more', s' := Extend(n, steps, more, s, WaitGroupDone(i));
    case Finished(_) => more', s' := more, s;
  }

  lemma {:induction false} FinishTasks(n: nat, steps: seq<Step>, more: seq<Step>, s: State, m: nat) returns (more': seq<Step>, s': State)
    requires Leads(n, steps, more, s) && m <= n
    ensures Leads(n, steps, more', s') && s'.caller == s.caller && s'.done == s.done
    ensures forall j :: 0 <= j < m ==> s'.tasks[j].Finished?
  {
    if m == 0 {
      more', s' := more, s;
    } else {
      more', s' := FinishTasks(n, steps, more, s, m - 1);
      more', s' := FinishTask(n, steps, more', s', m - 1);
    }
  }

  lemma {:induction false} DrainAll(n: nat, steps: seq<Step>, more: seq<Step>, s: State) returns (more': seq<Step>, s': State)
    requires Leads(n, steps, more, s) && s.caller.Draining?
    ensures Leads(n, steps, more', s') && s'.caller.Returned?
    decreases |s.buffer|
  {
    more', s' := Extend(n, steps, more, s, Drain);
    if s'.caller.Returned? {
    } else {
      more', s' := DrainAll(n, steps, more', s');
    }
  }

  /** From every reachable state DoParallel can return. */
  lemma CallerCanReturn(n: nat, steps: seq<Step>) returns (more: seq<Step>)
    requires Run(n, steps).Some?
    ensures Run(n, steps + more).Some? && Run(n, steps + more).value.caller.Returned?
  {
    RunKeeps(n, steps);
    assert steps + [] == steps;
    var s;
    more, s := FinishTasks(n, steps, [], Run(n, steps).value, n);
    if s.caller.Selecting? && !s.done {
      more, s := Extend(n, steps, more, s, CloseDone);
    }
    if s.caller.Selecting? {
      more, s := Extend(n, steps, more, s, TakeDone);
    }
    if s.caller.Draining? {
      more, s := DrainAll(n, steps, more, s);
    }
  }
}
