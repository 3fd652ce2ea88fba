/** internal/infra/rabbit.go: the connection, the goroutine that reconnects it,
    callers that ask for it, and Close, under an adversarial scheduler and an
    adversarial broker. */
module Rabbit {
  import opened Sets
  import opened Wrappers

  /** The monitor goroutine. From Dialling to Installing it holds connMu. */
  datatype Monitor = Selecting | Triggered | Dialling(attempt: nat) | BackingOff(attempt: nat) | Installing(conn: nat) | Exited

  datatype Closer = Entering | Lost | Cancelling | Joining | WantsLock | HasLock | Won

  datatype Getter = Reading | Checking(conn: Option<nat>) | Got(open: nat) | NoConnection

  datatype Holder = ByMonitor | ByCloser(id: nat)

  /** `open` says of every connection ever dialled whether it is still open. */
  datatype State = State(open: seq<bool>, conn: Option<nat>, connMu: Option<Holder>, closed: bool, cancelled: bool, token: bool,
                         monitor: Monitor, closers: map<nat, Closer>, getters: map<nat, Getter>)

  datatype Step =
    | Trigger                                   // triggerReconnect, or waitForClose on an error
    | Break(conn: nat)                          // the broker or network ends a connection
    | CancelParent                              // the context passed to NewRabbitConnection ends
    | TakeToken | SeeCancel                     // the monitor's select
    | LockMonitor | DialOk | DialFail | Retry | GiveUp | Install
    | CallClose(id: nat) | Swap(id: nat) | CancelOwn(id: nat) | Join(id: nat) | LockCloser(id: nat) | Shut(id: nat)
    | CallGet(id: nat) | Read(id: nat) | Check(id: nat)

  /** After NewRabbitConnection succeeded. */
  const INIT := State([true], Some(0), None, false, false, false, Selecting, map[], map[])

  predicate IsCloser(s: State, id: nat, c: Closer) {
    id in s.closers && s.closers[id] == c
  }

  predicate Enabled(s: State, step: Step) {
    match step
    case Trigger => true
    case Break(c) => c < |s.open|
    case CancelParent => true
    case TakeToken => s.monitor.Selecting? && s.token
    case SeeCancel => s.monitor.Selecting? && s.cancelled
    case LockMonitor => s.monitor.Triggered? && s.connMu.None?
    case DialOk => s.monitor.Dialling?
    case DialFail => s.monitor.Dialling?
    case Retry => s.monitor.BackingOff?
    case GiveUp => s.monitor.BackingOff? && s.cancelled
    case Install => s.monitor.Installing?
    case CallClose(id) => id !in s.closers
    case Swap(id) => IsCloser(s, id, Entering)
    case CancelOwn(id) => IsCloser(s, id, Cancelling)
    case Join(id) => IsCloser(s, id, Joining) && s.monitor.Exited?
    case LockCloser(id) => IsCloser(s, id, WantsLock) && s.connMu.None?
    case Shut(id) => IsCloser(s, id, HasLock)
    case CallGet(id) => id !in s.getters
    case Read(id) => id in s.getters && s.getters[id].Reading? && s.connMu.None?
    case Check(id) => id in s.getters && s.getters[id].Checking?
  }

  predicate IsOpen(s: State, c: Option<nat>) {
    c.Some? && c.value < |s.open| && s.open[c.value]
  }

  function CloseConn(open: seq<bool>, c: Option<nat>): seq<bool> {
    if c.Some? && c.value < |open| then open[c.value := false] else open
  }

  /** `max` is ReconnectMaxAttempts; 0 means no limit. */
  function Apply(max: nat, s: State, step: Step): State
    requires Enabled(s, step)
  {
    match step
    case Trigger => s.(token := true)
    case Break(c) => s.(open := s.open[c := false])
    case CancelParent => s.(cancelled := true)
    case TakeToken => s.(token := false, monitor := Triggered)
    case SeeCancel => s.(monitor := Exited)
    case LockMonitor => s.(monitor := Dialling(0), connMu := Some(ByMonitor))
    case DialOk => s.(open := s.open + [true], monitor := Installing(|s.open|))
    case DialFail =>
      var next := s.monitor.attempt + 1;
      if max == 0 || next < max then s.(monitor := BackingOff(next)) else s.(monitor := Selecting, connMu := None)
    case Retry => s.(monitor := Dialling(s.monitor.attempt))
    case GiveUp => s.(monitor := Selecting, connMu := None)
    case Install => s.(open := CloseConn(s.open, s.conn), conn := Some(s.monitor.conn), monitor := Selecting, connMu := None)
    case CallClose(id) => s.(closers := s.closers[id := Entering])
    case Swap(id) => if s.closed then s.(closers := s.closers[id := Lost]) else s.(closed := true, closers := s.closers[id := Cancelling])
    case CancelOwn(id) => s.(cancelled := true, closers := s.closers[id := Joining])
    case Join(id) => s.(closers := s.closers[id := WantsLock])
    case LockCloser(id) => s.(closers := s.closers[id := HasLock], connMu := Some(ByCloser(id)))
    case Shut(id) =>
      var s1 := if IsOpen(s, s.conn) then s.(open := CloseConn(s.open, s.conn), conn := None) else s;
      s1.(closers := s1.closers[id := Won], connMu := None)
    case CallGet(id) => s.(getters := s.getters[id := Reading])
    case Read(id) => s.(getters := s.getters[id := Checking(s.conn)])
    case Check(id) => s.(getters := s.getters[id := if IsOpen(s, s.getters[id].conn) then Got(s.getters[id].conn.value) else NoConnection])
  }

  function Run(max: nat, steps: seq<Step>): Option<State> {
    if steps == [] then Some(INIT)
    else
      var before := Run(max, steps[..|steps| - 1]);
      var step := steps[|steps| - 1];
      if before.Some? && Enabled(before.value, step) then Some(Apply(max, before.value, step)) else None
  }

  // The invariant.

  ghost predicate CloserInv(s: State, id: nat)
    requires id in s.closers
  {
    var c := s.closers[id];
    && (c.WantsLock? || c.HasLock? || c.Won? ==> s.monitor.Exited?)
    && (c.Joining? || c.WantsLock? || c.HasLock? || c.Won? ==> s.cancelled)
    && (c.HasLock? ==> s.connMu == Some(ByCloser(id)))
    && (c.Won? ==> forall x :: 0 <= x < |s.open| ==> !s.open[x])
  }

  /** A connection is open only if it is the current one or about to be. */
  ghost predicate OpenInv(s: State) {
    && (s.conn.Some? ==> s.conn.value < |s.open|)
    && (s.monitor.Installing? ==> s.monitor.conn < |s.open| && s.conn != Some(s.monitor.conn))
    && (forall x :: 0 <= x < |s.open| && s.open[x] ==> s.conn == Some(x) || s.monitor == Installing(x))
    && (s.monitor.Dialling? || s.monitor.BackingOff? || s.monitor.Installing? <==> s.connMu == Some(ByMonitor))
    && (s.connMu.Some? && s.connMu.value.ByCloser? ==> IsCloser(s, s.connMu.value.id, HasLock))
  }

  ghost predicate Inv(s: State) {
    OpenInv(s) && forall id :: id in s.closers ==> CloserInv(s, id)
  }

  predicate OfMonitor(step: Step) {
    step.LockMonitor? || step.DialOk? || step.DialFail? || step.Retry? || step.GiveUp? || step.Install? || step.TakeToken? || step.SeeCancel?
  }

  predicate OfCloser(step: Step) {
    step.CallClose? || step.Swap? || step.CancelOwn? || step.Join? || step.LockCloser? || step.Shut?
  }

  lemma OpenDialled(max: nat, s: State)
    requires OpenInv(s) && Enabled(s, DialOk)
    ensures OpenInv(Apply(max, s, DialOk))
  {
  }

  lemma OpenInstalled(max: nat, s: State)
    requires OpenInv(s) && Enabled(s, Install)
    ensures OpenInv(Apply(max, s, Install))
  {
  }

  lemma OpenMonitorStep(max: nat, s: State, step: Step)
    requires OpenInv(s) && Enabled(s, step) && OfMonitor(step)
    ensures OpenInv(Apply(max, s, step))
  {
    if step.DialOk? {
      OpenDialled(max, s);
    } else if step.Install? {
      OpenInstalled(max, s);
    } else {
      assert Apply(max, s, step).open == s.open && Apply(max, s, step).conn == s.conn;
    }
  }

  lemma OpenCloserStep(max: nat, s: State, step: Step)
    requires OpenInv(s) && Enabled(s, step) && OfCloser(step)
    requires step.id in s.closers ==> CloserInv(s, step.id)
    ensures OpenInv(Apply(max, s, step))
  {
  }

  lemma OpenOtherStep(max: nat, s: State, step: Step)
    requires OpenInv(s) && Enabled(s, step) && !OfMonitor(step) && !OfCloser(step)
    ensures OpenInv(Apply(max, s, step))
  {
  }

  lemma ClosersKept(s: State, s': State, id: nat)
    requires Inv(s) && s'.closers.Keys <= s.closers.Keys + {id}
    requires forall o :: o in s.closers && o != id ==> o in s'.closers && s'.closers[o] == s.closers[o]
    requires s.cancelled ==> s'.cancelled
    requires s.monitor.Exited? ==> s'.monitor.Exited? && |s'.open| == |s.open| && forall x :: 0 <= x < |s.open| && s'.open[x] ==> s.open[x]
    requires s'.connMu == s.connMu || s.connMu.None? || s.connMu == Some(ByMonitor) || s.connMu == Some(ByCloser(id))
    requires id in s'.closers ==> CloserInv(s', id)
    ensures forall o :: o in s'.closers ==> CloserInv(s', o)
  {
  }

  lemma CloserStep(max: nat, s: State, step: Step)
    requires Inv(s) && Enabled(s, step) && OfCloser(step)
    ensures Inv(Apply(max, s, step))
  {
    assert step.id in s.closers ==> CloserInv(s, step.id);
    OpenCloserStep(max, s, step);
    ClosersKept(s, Apply(max, s, step), step.id);
  }

  lemma OtherStep(max: nat, s: State, step: Step)
    requires Inv(s) && Enabled(s, step) && !OfCloser(step)
    ensures Inv(Apply(max, s, step))
  {
    if OfMonitor(step) {
      OpenMonitorStep(max, s, step);
    } else {
      OpenOtherStep(max, s, step);
    }
    var s' := Apply(max, s, step);
    forall id | id in s'.closers
      ensures CloserInv(s', id)
    {
      assert CloserInv(s, id);
    }
  }

  lemma {:induction false} RunKeeps(max: nat, steps: seq<Step>)
    requires Run(max, steps).Some?
    ensures Inv(Run(max, steps).value)
  {
    if steps == [] {
    } else {
      var n := |steps| - 1;
      RunKeeps(max, steps[..n]);
      if OfCloser(steps[n]) {
        CloserStep(max, Run(max, steps[..n]).value, steps[n]);
      } else {
        OtherStep(max, Run(max, steps[..n]).value, steps[n]);
      }
    }
  }

  lemma TokenStep(max: nat, s: State, step: Step)
    requires Enabled(s, step) && s.token && !step.TakeToken?
    ensures Apply(max, s, step).token
  {
  }

  /** A trigger is never lost: until the monitor starts another connect, the
      token it left, or found, is pending. */
  lemma {:induction false} TriggerStaysPending(max: nat, steps: seq<Step>, n: nat)
    requires n < |steps| && steps[n].Trigger? && Run(max, steps).Some?
    requires forall i :: n < i < |steps| ==> !steps[i].TakeToken?
    ensures Run(max, steps).value.token
    ensures Run(max, steps).value.monitor.Selecting? ==> Enabled(Run(max, steps).value, TakeToken)
  {
    if n < |steps| - 1 {
      var k := |steps| - 1;
      TriggerStaysPending(max, steps[..k], n);
      TokenStep(max, Run(max, steps[..k]).value, steps[k]);
    }
  }

  lemma TakenStep(max: nat, s: State, step: Step)
    requires Enabled(s, step) && s.monitor.Triggered? && !step.LockMonitor?
    ensures Apply(max, s, step).monitor.Triggered?
  {
  }

  /** A Close locks connMu only once the monitor is gone. */
  lemma LockHolder(s: State)
    requires Inv(s)
    ensures s.connMu.Some? && s.connMu.value.ByCloser? ==> s.monitor.Exited?
  {
    assert s.connMu.Some? && s.connMu.value.ByCloser? ==> CloserInv(s, s.connMu.value.id);
  }

  lemma {:induction false} TakenStays(max: nat, steps: seq<Step>, i: nat)
    requires i < |steps| && steps[i].TakeToken? && Run(max, steps).Some?
    requires forall j :: i < j < |steps| ==> !steps[j].LockMonitor?
    ensures Run(max, steps).value.monitor.Triggered?
  {
    if i == |steps| - 1 {
    } else {
      var k := |steps| - 1;
      TakenStays(max, steps[..k], i);
      TakenStep(max, Run(max, steps[..k]).value, steps[k]);
    }
  }

  /** A monitor that cannot step has started a connect after every trigger, or
      has exited: no trigger is left behind. */
  lemma NoTriggerLeftBehind(max: nat, steps: seq<Step>, n: nat)
    requires n < |steps| && steps[n].Trigger? && Run(max, steps).Some?
    requires forall e :: OfMonitor(e) ==> !Enabled(Run(max, steps).value, e)
    ensures Run(max, steps).value.monitor.Exited? || exists i :: n < i < |steps| && steps[i].LockMonitor?
  {
    RunKeeps(max, steps);
    var s := Run(max, steps).value;
    assert OfMonitor(TakeToken) && OfMonitor(LockMonitor) && OfMonitor(DialOk) && OfMonitor(Retry) && OfMonitor(Install);
    if s.monitor.Selecting? && forall i :: n < i < |steps| ==> !steps[i].LockMonitor? {
      if i :| n < i < |steps| && steps[i].TakeToken? {
        TakenStays(max, steps, i);
      } else {
        TriggerStaysPending(max, steps, n);
      }
    } else {
      LockHolder(s);
    }
  }

  lemma WonStep(max: nat, s: State, step: Step, closer: nat)
    requires Enabled(s, step) && IsCloser(s, closer, Won)
    ensures IsCloser(Apply(max, s, step), closer, Won)
  {
  }

  lemma {:induction false} WonStays(max: nat, steps: seq<Step>, n: nat, closer: nat)
    requires n <= |steps| && Run(max, steps).Some?
    ensures Run(max, steps[..n]).Some?
    ensures IsCloser(Run(max, steps[..n]).value, closer, Won) ==> IsCloser(Run(max, steps).value, closer, Won)
  {
    if n == |steps| {
      assert steps[..n] == steps;
    } else {
      var k := |steps| - 1;
      assert steps[..k][..n] == steps[..n];
      WonStays(max, steps[..k], n, closer);
      if IsCloser(Run(max, steps[..k]).value, closer, Won) {
        WonStep(max, Run(max, steps[..k]).value, steps[k], closer);
      }
    }
  }

  /** Once the Close that won the flag has returned, every connection ever
      dialled is closed and stays so: whenever a getConnection comes to its
      check after that, even one that read the connection before, it fails. */
  lemma NoConnectionAfterClose(max: nat, steps: seq<Step>, n: nat, closer: nat, getter: nat)
    requires n <= |steps| && Run(max, steps).Some? && Run(max, steps[..n]).Some?
    requires IsCloser(Run(max, steps[..n]).value, closer, Won)
    ensures var s := Run(max, steps).value;
      && (forall x :: 0 <= x < |s.open| ==> !s.open[x])
      && s.monitor.Exited?
      && (Enabled(s, Check(getter)) ==> Apply(max, s, Check(getter)).getters[getter] == NoConnection)
  {
    WonStays(max, steps, n, closer);
    RunKeeps(max, steps);
    assert CloserInv(Run(max, steps).value, closer);
  }

  /** Whenever connMu is free at most one connection is open, the current one:
      reconnecting leaks none. */
  lemma NoLeakedConnection(max: nat, steps: seq<Step>, x: nat)
    requires Run(max, steps).Some? && !Run(max, steps).value.connMu.Some?
    requires x < |Run(max, steps).value.open| && Run(max, steps).value.open[x]
    ensures Run(max, steps).value.conn == Some(x)
  {
    RunKeeps(max, steps);
  }

  lemma Append(max: nat, steps: seq<Step>, s: State, step: Step)
    requires Run(max, steps) == Some(s) && Enabled(s, step)
    ensures Run(max, steps + [step]) == Some(Apply(max, s, step))
  {
  }

  // When a connection may still be handed out.

  /** The monitor may still reconnect, or the open connection can be read, or
      some getConnection has read it already. */
  ghost predicate CanHandOut(s: State) {
    || !s.monitor.Exited?
    || (s.connMu.None? && IsOpen(s, s.conn))
    || exists id :: id in s.getters && s.getters[id].Checking? && IsOpen(s, s.getters[id].conn)
  }

  predicate HasGot(s: State, id: nat) {
    id in s.getters && s.getters[id].Got?
  }

  /** Getter id was handed a connection that is open. */
  predicate HasOpen(s: State, id: nat) {
    HasGot(s, id) && IsOpen(s, Some(s.getters[id].open))
  }

  /** In the continuation `more`, getConnection `id` returns a connection, and
      it is open. */
  ghost predicate HandsOut(max: nat, steps: seq<Step>, more: seq<Step>, id: nat) {
    && Run(max, steps).Some? && Run(max, steps + more).Some?
    && HasOpen(Run(max, steps + more).value, id) && !HasGot(Run(max, steps).value, id)
  }

  predicate OfGetter(step: Step) {
    step.CallGet? || step.Read? || step.Check?
  }

  lemma NothingFromGetter(max: nat, s: State, step: Step, id: nat)
    requires !CanHandOut(s) && Enabled(s, step) && OfGetter(step)
    ensures !CanHandOut(Apply(max, s, step)) && (HasGot(Apply(max, s, step), id) ==> HasGot(s, id))
  {
  }

  lemma NothingFromOthers(max: nat, s: State, step: Step)
    requires Inv(s) && !CanHandOut(s) && Enabled(s, step) && !OfGetter(step)
    ensures !CanHandOut(Apply(max, s, step)) && Apply(max, s, step).getters == s.getters
  {
    var s' := Apply(max, s, step);
    assert s'.getters == s.getters;
    assert forall c: Option<nat> :: IsOpen(s', c) ==> IsOpen(s, c);
  }

  lemma NothingToHandOutStep(max: nat, s: State, step: Step, id: nat)
    requires Inv(s) && !CanHandOut(s) && Enabled(s, step)
    ensures !CanHandOut(Apply(max, s, step)) && (HasGot(Apply(max, s, step), id) ==> HasGot(s, id))
  {
    if OfGetter(step) {
      NothingFromGetter(max, s, step, id);
    } else {
      NothingFromOthers(max, s, step);
    }
  }

  lemma LastStep(max: nat, steps: seq<Step>, step: Step)
    requires Run(max, steps + [step]).Some?
    ensures Run(max, steps).Some? && Enabled(Run(max, steps).value, step)
    ensures Run(max, steps + [step]) == Some(Apply(max, Run(max, steps).value, step))
  {
    assert (steps + [step])[..|steps|] == steps;
  }

  lemma {:induction false} NothingToHandOut(max: nat, steps: seq<Step>, more: seq<Step>, id: nat)
    requires Run(max, steps).Some? && Run(max, steps + more).Some? && !CanHandOut(Run(max, steps).value)
    ensures !CanHandOut(Run(max, steps + more).value)
    ensures HasGot(Run(max, steps + more).value, id) ==> HasGot(Run(max, steps).value, id)
  {
    if more == [] {
      assert steps + more == steps;
    } else {
      var k := |more| - 1;
      var before := steps + more[..k];
      assert steps + more == before + [more[k]];
      LastStep(max, before, more[k]);
      NothingToHandOut(max, steps, more[..k], id);
      RunKeeps(max, before);
      NothingToHandOutStep(max, Run(max, before).value, more[k], id);
    }
  }

  /** `more` leads from the end of `steps` to s. */
  ghost predicate Leads(max: nat, steps: seq<Step>, more: seq<Step>, s: State) {
    Run(max, steps + more) == Some(s) && Inv(s)
  }

  lemma Extend(max: nat, steps: seq<Step>, more: seq<Step>, s: State, step: Step) returns (more': seq<Step>, s': State)
    requires Leads(max, steps, more, s) && Enabled(s, step)
    ensures Leads(max, steps, more', s') && s' == Apply(max, s, step)
  {
    more', s' := more + [step], Apply(max, s, step);
    Append(max, steps + more, s, step);
    assert steps + more + [step] == steps + more';
    RunKeeps(max, steps + more');
  }

  /** The current connection is open and can be read; calls under way are as
      they were. */
  predicate Reconnected(s: State, s': State) {
    && s'.connMu.None? && IsOpen(s', s'.conn) && s'.monitor.Selecting?
    && s'.getters == s.getters && s'.closers == s.closers && s'.cancelled == s.cancelled
  }

  lemma ReconnectFromDial(max: nat, steps: seq<Step>, more: seq<Step>, s: State) returns (more': seq<Step>, s': State)
    requires Leads(max, steps, more, s) && s.monitor.Dialling?
    ensures Leads(max, steps, more', s') && Reconnected(s, s')
  {
    more', s' := Extend(max, steps, more, s, DialOk);
    more', s' := Extend(max, steps, more', s', Install);
  }

  lemma ReconnectFromTrigger(max: nat, steps: seq<Step>, more: seq<Step>, s: State) returns (more': seq<Step>, s': State)
    requires Leads(max, steps, more, s) && s.monitor.Triggered?
    ensures Leads(max, steps, more', s') && Reconnected(s, s')
  {
    LockHolder(s);
    more', s' := Extend(max, steps, more, s, LockMonitor);
    more', s' := ReconnectFromDial(max, steps, more', s');
  }

  lemma ReconnectFromSelect(max: nat, steps: seq<Step>, more: seq<Step>, s: State) returns (more': seq<Step>, s': State)
    requires Leads(max, steps, more, s) && s.monitor.Selecting?
    ensures Leads(max, steps, more', s') && Reconnected(s, s')
  {
    more', s' := Extend(max, steps, more, s, Trigger);
    more', s' := Extend(max, steps, more', s', TakeToken);
    more', s' := ReconnectFromTrigger(max, steps, more', s');
  }

  /** A monitor that has not exited can always reconnect. */
  lemma Reconnect(max: nat, steps: seq<Step>, more: seq<Step>, s: State) returns (more': seq<Step>, s': State)
    requires Leads(max, steps, more, s) && !s.monitor.Exited?
    ensures Leads(max, steps, more', s') && Reconnected(s, s')
  {
    match s.monitor
    case Selecting => more', s' := ReconnectFromSelect(max, steps, more, s);
    case Triggered => more', s' := ReconnectFromTrigger(max, steps, more, s);
    case Dialling(_) => more', s' := ReconnectFromDial(max, steps, more, s);
    case BackingOff(_) =>
      more', s' := Extend(max, steps, more, s, Retry);
      more', s' := ReconnectFromDial(max, steps, more', s');
    case Installing(_) =>
      more', s' := Extend(max, steps, more, s, Install);
      more', s' := ReconnectFromSelect(max, steps, more', s');
  }

  lemma GetOpen(max: nat, steps: seq<Step>, more: seq<Step>, s: State) returns (more': seq<Step>, s': State, id: nat)
    requires Leads(max, steps, more, s) && s.connMu.None? && IsOpen(s, s.conn)
    ensures Leads(max, steps, more', s') && id !in s.getters && HasOpen(s', id)
  {
    id := Above(s.getters.Keys);
    more', s' := Extend(max, steps, more, s, CallGet(id));
    more', s' := Extend(max, steps, more', s', Read(id));
    more', s' := Extend(max, steps, more', s', Check(id));
  }

  lemma HandOut(max: nat, steps: seq<Step>) returns (more: seq<Step>, id: nat)
    requires Run(max, steps).Some? && CanHandOut(Run(max, steps).value)
    ensures HandsOut(max, steps, more, id)
  {
    RunKeeps(max, steps);
    var s := Run(max, steps).value;
    assert steps + [] == steps;
    var s';
    if !s.monitor.Exited? {
      more, s' := Reconnect(max, steps, [], s);
      more, s', id := GetOpen(max, steps, more, s');
    } else if s.connMu.None? && IsOpen(s, s.conn) {
      more, s', id := GetOpen(max, steps, [], s);
    } else {
      id :| id in s.getters && s.getters[id].Checking? && IsOpen(s, s.getters[id].conn);
      more, s' := Extend(max, steps, [], s, Check(id));
    }
  }

  /** From any reachable state some continuation hands out an open connection
      if and only if CanHandOut holds. */
  lemma HandOutIff(max: nat, steps: seq<Step>)
    requires Run(max, steps).Some?
    ensures (exists more, id :: HandsOut(max, steps, more, id)) <==> CanHandOut(Run(max, steps).value)
  {
    if CanHandOut(Run(max, steps).value) {
      var more, id := HandOut(max, steps);
    } else {
      forall more, id
        ensures !HandsOut(max, steps, more, id)
      {
        if Run(max, steps + more).Some? {
          NothingToHandOut(max, steps, more, id);
        }
      }
    }
  }

  /** A Close that loses the flag returns at once and settles nothing: a
      connection may be handed out after it exactly if it might before. */
  lemma LosingCloseSettlesNothing(max: nat, steps: seq<Step>, closer: nat)
    requires Run(max, steps).Some? && Run(max, steps).value.closed && closer !in Run(max, steps).value.closers
    ensures var after := steps + [CallClose(closer)] + [Swap(closer)];
      && Run(max, after).Some? && IsCloser(Run(max, after).value, closer, Lost)
      && ((exists more, id :: HandsOut(max, after, more, id)) <==> CanHandOut(Run(max, steps).value))
  {
    var s := Run(max, steps).value;
    Append(max, steps, s, CallClose(closer));
    Append(max, steps + [CallClose(closer)], Apply(max, s, CallClose(closer)), Swap(closer));
    HandOutIff(max, steps + [CallClose(closer)] + [Swap(closer)]);
  }

  // What a getConnection returns.

  /** Step i read `conn` for getter id, and that was the current one. */
  ghost predicate ReadAt(max: nat, steps: seq<Step>, i: nat, id: nat, conn: Option<nat>) {
    i < |steps| && steps[i] == Read(id) && Run(max, steps[..i]).Some? && Run(max, steps[..i]).value.conn == conn
  }

  lemma ReadingStep(max: nat, s: State, step: Step, id: nat)
    requires Enabled(s, step) && id in Apply(max, s, step).getters && Apply(max, s, step).getters[id].Checking?
    ensures var conn := Apply(max, s, step).getters[id].conn;
      if step == Read(id) then conn == s.conn else id in s.getters && s.getters[id] == Checking(conn)
  {
  }

  lemma {:induction false} CheckingWasRead(max: nat, steps: seq<Step>, id: nat) returns (i: nat)
    requires Run(max, steps).Some? && id in Run(max, steps).value.getters && Run(max, steps).value.getters[id].Checking?
    ensures ReadAt(max, steps, i, id, Run(max, steps).value.getters[id].conn)
  {
    i := 0;
    if steps == [] {
    } else {
      var k := |steps| - 1;
      ReadingStep(max, Run(max, steps[..k]).value, steps[k], id);
      if steps[k] == Read(id) {
        i := k;
      } else {
        i := CheckingWasRead(max, steps[..k], id);
        assert steps[..k][..i] == steps[..i];
      }
    }
  }

  /** Every getConnection returns the connection that was current when it read
      it, if that one is open when it checks, and an error if not. */
  lemma GetsWhatItRead(max: nat, steps: seq<Step>, id: nat) returns (i: nat, conn: Option<nat>)
    requires Run(max, steps + [Check(id)]).Some?
    ensures ReadAt(max, steps, i, id, conn)
    ensures var s := Run(max, steps + [Check(id)]).value;
      && id in s.getters
      && (s.getters[id].Got? ==> conn == Some(s.getters[id].open) && IsOpen(s, conn))
      && (!s.getters[id].Got? ==> s.getters[id].NoConnection? && !IsOpen(s, conn))
  {
    LastStep(max, steps, Check(id));
    i := CheckingWasRead(max, steps, id);
    conn := Run(max, steps).value.getters[id].conn;
  }

  lemma ClosedStep(max: nat, s: State, step: Step, c: nat)
    requires Enabled(s, step) && c < |s.open| && (!s.open[c] || step == Break(c))
    ensures c < |Apply(max, s, step).open| && !Apply(max, s, step).open[c]
  {
  }

  /** A connection that broke is never handed out again. */
  lemma {:induction false} BrokenForGood(max: nat, steps: seq<Step>, n: nat, id: nat)
    requires n < |steps| && steps[n].Break? && Run(max, steps).Some?
    ensures var s := Run(max, steps).value;
      && !IsOpen(s, Some(steps[n].conn)) && steps[n].conn < |s.open|
      && (Enabled(s, Check(id)) ==> Apply(max, s, Check(id)).getters[id] != Got(steps[n].conn))
  {
    var k := |steps| - 1;
    if n < k {
      BrokenForGood(max, steps[..k], n, id);
    }
    ClosedStep(max, Run(max, steps[..k]).value, steps[k], steps[n].conn);
  }

  // How often a connect dials.

  /** Failed dials since the last connect started. */
  function DialsFailed(steps: seq<Step>): nat {
    if steps == [] then 0
    else
      var before := DialsFailed(steps[..|steps| - 1]);
      match steps[|steps| - 1]
      case LockMonitor => 0
      case DialFail => before + 1
      case _ => before
  }

  lemma AttemptStep(max: nat, s: State, step: Step, failed: nat)
    requires Enabled(s, step)
    requires s.monitor.Dialling? || s.monitor.BackingOff? ==> s.monitor.attempt == failed && (max == 0 || failed < max)
    ensures var s' := Apply(max, s, step);
      var now := if step.LockMonitor? then 0 else if step.DialFail? then failed + 1 else failed;
      s'.monitor.Dialling? || s'.monitor.BackingOff? ==> s'.monitor.attempt == now && (max == 0 || now < max)
  {
  }

  lemma {:induction false} AttemptIsCount(max: nat, steps: seq<Step>)
    requires Run(max, steps).Some?
    ensures var m := Run(max, steps).value.monitor;
      m.Dialling? || m.BackingOff? ==> m.attempt == DialsFailed(steps) && (max == 0 || m.attempt < max)
  {
    if steps == [] {
    } else {
      var k := |steps| - 1;
      AttemptIsCount(max, steps[..k]);
      AttemptStep(max, Run(max, steps[..k]).value, steps[k], DialsFailed(steps[..k]));
    }
  }

  /** A connect gives up at the failed dial that makes ReconnectMaxAttempts,
      never if that is 0, and backs off at every earlier one. */
  lemma GivesUpIff(max: nat, steps: seq<Step>)
    requires Run(max, steps + [DialFail]).Some?
    ensures var s := Run(max, steps + [DialFail]).value;
      if max != 0 && DialsFailed(steps + [DialFail]) == max then s.monitor.Selecting? && s.connMu.None? else s.monitor.BackingOff?
  {
    LastStep(max, steps, DialFail);
    AttemptIsCount(max, steps);
    assert (steps + [DialFail])[..|steps|] == steps;
  }

  // Close.

  /** With the monitor gone, a Close that waited for it can return. */
  lemma WinnerReturns(max: nat, steps: seq<Step>, more: seq<Step>, s: State, id: nat) returns (more': seq<Step>, s': State)
    requires Leads(max, steps, more, s) && s.monitor.Exited? && id in s.closers
    requires s.closers[id].Joining? || s.closers[id].WantsLock? || s.closers[id].HasLock?
    ensures Leads(max, steps, more', s') && IsCloser(s', id, Won)
  {
    more', s' := more, s;
    assert CloserInv(s, id);
    if s'.closers[id].Joining? {
      more', s' := Extend(max, steps, more', s', Join(id));
    }
    if s'.closers[id].WantsLock? {
      if s'.connMu.Some? {
        more', s' := Extend(max, steps, more', s', Shut(s'.connMu.value.id));
      }
      more', s' := Extend(max, steps, more', s', LockCloser(id));
    }
    more', s' := Extend(max, steps, more', s', Shut(id));
  }

  /** From every reachable state every Close can return, whatever the monitor
      and the broker did. */
  lemma CloseCanReturn(max: nat, steps: seq<Step>, id: nat) returns (more: seq<Step>)
    requires Run(max, steps).Some? && id in Run(max, steps).value.closers
    ensures Run(max, steps + more).Some?
    ensures IsCloser(Run(max, steps + more).value, id, Won) || IsCloser(Run(max, steps + more).value, id, Lost)
  {
    RunKeeps(max, steps);
    assert steps + [] == steps;
    var s;
    more, s := [], Run(max, steps).value;
    if s.closers[id].Entering? {
      more, s := Extend(max, steps, more, s, Swap(id));
    }
    if s.closers[id].Cancelling? {
      more, s := Extend(max, steps, more, s, CancelOwn(id));
    }
    if !s.closers[id].Won? && !s.closers[id].Lost? {
      assert CloserInv(s, id);
      if !s.monitor.Exited? {
        more, s := Reconnect(max, steps, more, s);
        more, s := Extend(max, steps, more, s, SeeCancel);
      }
      more, s := WinnerReturns(max, steps, more, s, id);
    }
  }

  /** A trigger that no connect has taken up yet. */
  ghost predicate TriggerPending(steps: seq<Step>) {
    exists n :: TriggerAt(steps, n) && forall i :: n < i < |steps| ==> !steps[i].TakeToken?
  }

  predicate TriggerAt(steps: seq<Step>, n: int) {
    0 <= n < |steps| && steps[n].Trigger?
  }

  lemma TokenSteps(max: nat, s: State, step: Step)
    requires Enabled(s, step)
    ensures Apply(max, s, step).token <==> step.Trigger? || (s.token && !step.TakeToken?)
  {
  }

  lemma PendingGrows(steps: seq<Step>, step: Step)
    ensures TriggerPending(steps + [step]) <==> step.Trigger? || (TriggerPending(steps) && !step.TakeToken?)
  {
    var all := steps + [step];
    assert all[|steps|] == step;
    assert forall n :: 0 <= n < |steps| ==> all[n] == steps[n];
    if step.Trigger? {
      assert TriggerAt(all, |steps|);
    } else if TriggerPending(all) {
      var n :| TriggerAt(all, n) && forall i :: n < i < |all| ==> !all[i].TakeToken?;
      assert TriggerAt(steps, n);
    } else if TriggerPending(steps) {
      var n :| TriggerAt(steps, n) && forall i :: n < i < |steps| ==> !steps[i].TakeToken?;
      assert TriggerAt(all, n);
    }
  }

  /** The channel holds a token if and only if some trigger came after the
      last time the monitor took it: triggers coalesce, none is lost, and none
      makes two connects. */
  lemma {:induction false} TokenIffPending(max: nat, steps: seq<Step>)
    requires Run(max, steps).Some?
    ensures Run(max, steps).value.token <==> TriggerPending(steps)
  {
    if steps == [] {
    } else {
      var k := |steps| - 1;
      TokenIffPending(max, steps[..k]);
      TokenSteps(max, Run(max, steps[..k]).value, steps[k]);
      PendingGrows(steps[..k], steps[k]);
      assert steps == steps[..k] + [steps[k]];
    }
  }

  predicate PastSwap(c: Closer) {
    !c.Entering? && !c.Lost?
  }

  ghost function Winners(s: State): set<nat> {
    set w | w in s.closers && PastSwap(s.closers[w])
  }

  /** Once the flag is set exactly one Close is past it, and before that none. */
  ghost predicate FlagInv(s: State) {
    if s.closed then |Winners(s)| == 1 else Winners(s) == {}
  }

  lemma WinnersStep(max: nat, s: State, step: Step)
    requires Enabled(s, step)
    ensures Winners(Apply(max, s, step)) == if step.Swap? && !s.closed then Winners(s) + {step.id} else Winners(s)
    ensures Apply(max, s, step).closed <==> s.closed || step.Swap?
  {
    var s' := Apply(max, s, step);
    if OfCloser(step) {
      assert s'.closers == s.closers[step.id := s'.closers[step.id]];
    } else {
      assert s'.closers == s.closers;
    }
  }

  /** One Close wins the flag; every other one returns without doing anything. */
  lemma {:induction false} OneCloseWins(max: nat, steps: seq<Step>)
    requires Run(max, steps).Some?
    ensures FlagInv(Run(max, steps).value)
  {
    if steps == [] {
    } else {
      var k := |steps| - 1;
      OneCloseWins(max, steps[..k]);
      WinnersStep(max, Run(max, steps[..k]).value, steps[k]);
    }
  }

  lemma CancelSteps(max: nat, s: State, step: Step)
    requires Enabled(s, step)
    ensures Apply(max, s, step).monitor.Exited? <==> s.monitor.Exited? || step.SeeCancel?
    ensures Apply(max, s, step).cancelled <==> s.cancelled || step.CancelParent? || step.CancelOwn?
  {
  }

  /** The monitor exits only at its select, and only once a context was
      cancelled: a connect given up for that leads back there first. */
  lemma {:induction false} ExitedIff(max: nat, steps: seq<Step>)
    requires Run(max, steps).Some?
    ensures Run(max, steps).value.monitor.Exited? <==> exists i :: 0 <= i < |steps| && steps[i].SeeCancel?
    ensures Run(max, steps).value.cancelled <==> exists i :: 0 <= i < |steps| && (steps[i].CancelParent? || steps[i].CancelOwn?)
    ensures Run(max, steps).value.monitor.Exited? ==> Run(max, steps).value.cancelled
  {
    if steps == [] {
    } else {
      var k := |steps| - 1;
      ExitedIff(max, steps[..k]);
      assert forall i :: 0 <= i < k ==> steps[..k][i] == steps[i];
      CancelSteps(max, Run(max, steps[..k]).value, steps[k]);
    }
  }
}
