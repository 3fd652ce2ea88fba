/** The rate limit both limiters implement: a request is allowed while fewer
    than `limit` allowed requests lie in the window that ends with it. */
module SlidingWindow {
  /** Times of the allowed requests of one key, oldest first. */
  type Times = seq<int>

  /** `member` is the unique name Redis stores the request under. */
  datatype Event = Acquire(time: int, member: string) | Reset(time: int) | Cleanup(time: int)

  ghost predicate Sorted(s: Times) {
    forall i, j :: 0 <= i < j < |s| ==> s[i] <= s[j]
  }

  ghost predicate InOrder(events: seq<Event>) {
    forall i, j :: 0 <= i < j < |events| ==> events[i].time <= events[j].time
  }

  ghost predicate UpTo(s: Times, now: int) {
    forall i :: 0 <= i < |s| ==> s[i] <= now
  }

  /** How many of the times lie in (lo, hi]. */
  function CountIn(s: Times, lo: int, hi: int): nat {
    if s == [] then 0
    else CountIn(s[..|s| - 1], lo, hi) + if lo < s[|s| - 1] <= hi then 1 else 0
  }

  /** `log` is every request allowed since the last Reset. */
  datatype Admissions = Admissions(log: Times, answers: seq<bool>)

  function Apply(limit: nat, window: nat, s: Admissions, e: Event): Admissions {
    match e
    case Acquire(now, _) =>
      var ok := CountIn(s.log, now - window, now) < limit;
      Admissions(if ok then s.log + [now] else s.log, s.answers + [ok])
    case Reset(_) => s.(log := [])
    case Cleanup(_) => s
  }

  function Exec(limit: nat, window: nat, events: seq<Event>): Admissions {
    if events == [] then Admissions([], [])
    else Apply(limit, window, Exec(limit, window, events[..|events| - 1]), events[|events| - 1])
  }

  lemma {:induction false} NarrowerCountsLess(s: Times, lo: int, hi: int, lo': int, hi': int)
    requires lo <= lo'
    requires hi' <= hi || UpTo(s, hi)
    ensures CountIn(s, lo', hi') <= CountIn(s, lo, hi)
  {
    if s == [] {
    } else {
      NarrowerCountsLess(s[..|s| - 1], lo, hi, lo', hi');
    }
  }

  lemma StepPast(limit: nat, window: nat, s: Admissions, e: Event)
    requires Sorted(s.log) && UpTo(s.log, e.time)
    ensures var log := Apply(limit, window, s, e).log; Sorted(log) && UpTo(log, e.time)
  {
  }

  lemma {:induction false} LogPast(limit: nat, window: nat, events: seq<Event>, now: int)
    requires InOrder(events) && (events != [] ==> events[|events| - 1].time <= now)
    ensures var log := Exec(limit, window, events).log; Sorted(log) && UpTo(log, now)
  {
    if events == [] {
    } else {
      var n := |events| - 1;
      LogPast(limit, window, events[..n], events[n].time);
      StepPast(limit, window, Exec(limit, window, events[..n]), events[n]);
    }
  }

  lemma CountOfAppend(s: Times, x: int, lo: int, hi: int)
    ensures CountIn(s + [x], lo, hi) == CountIn(s, lo, hi) + if lo < x <= hi then 1 else 0
  {
  }

  lemma StepNotOverfull(limit: nat, window: nat, s: Admissions, e: Event, t: int)
    requires CountIn(s.log, t, t + window) <= limit && UpTo(s.log, e.time)
    ensures CountIn(Apply(limit, window, s, e).log, t, t + window) <= limit
  {
    CountOfAppend(s.log, e.time, t, t + window);
    if t < e.time <= t + window {
      NarrowerCountsLess(s.log, e.time - window, e.time, t, t + window);
    }
  }

  /** No window of the given length, wherever it starts, ever contains more
      than `limit` allowed requests. */
  lemma {:induction false} WindowNeverOverfull(limit: nat, window: nat, events: seq<Event>, t: int)
    requires InOrder(events)
    ensures CountIn(Exec(limit, window, events).log, t, t + window) <= limit
  {
    if events == [] {
    } else {
      var n := |events| - 1;
      WindowNeverOverfull(limit, window, events[..n], t);
      LogPast(limit, window, events[..n], events[n].time);
      StepNotOverfull(limit, window, Exec(limit, window, events[..n]), events[n], t);
    }
  }

  /** The answer to a request is no, and the request is not recorded, exactly
      when `limit` allowed requests lie in its window. */
  lemma RefusedIffFull(limit: nat, window: nat, events: seq<Event>, now: int, member: string)
    requires InOrder(events)
    ensures var s := Exec(limit, window, events); var full := CountIn(s.log, now - window, now) == limit;
      && Apply(limit, window, s, Acquire(now, member)).answers == s.answers + [!full]
      && Apply(limit, window, s, Acquire(now, member)).log == if full then s.log else s.log + [now]
  {
    WindowNeverOverfull(limit, window, events, now - window);
  }

  lemma {:induction false} CountBelowIff(s: Times, lo: int, hi: int, m: nat)
    requires Sorted(s) && UpTo(s, hi) && m >= 1
    ensures CountIn(s, lo, hi) < m <==> |s| < m || s[|s| - m] <= lo
  {
    if s != [] && (s[|s| - 1] <= lo || m > 1) {
      CountBelowIff(s[..|s| - 1], lo, hi, if s[|s| - 1] <= lo then m else m - 1);
    }
  }

  lemma AnswerIff(limit: nat, window: nat, s: Admissions, now: int, member: string)
    requires Sorted(s.log) && UpTo(s.log, now)
    ensures var ok := limit > 0 && (|s.log| < limit || s.log[|s.log| - limit] <= now - window);
      Apply(limit, window, s, Acquire(now, member)).answers == s.answers + [ok]
  {
    if limit > 0 {
      CountBelowIff(s.log, now - window, now, limit);
    }
  }

  /** A request is allowed exactly when there were fewer than `limit` before
      it, or the limit-th latest of them is at least a window ago. */
  lemma AllowedIff(limit: nat, window: nat, events: seq<Event>, now: int, member: string)
    requires InOrder(events) && (events != [] ==> events[|events| - 1].time <= now)
    ensures var s := Exec(limit, window, events);
      var ok := limit > 0 && (|s.log| < limit || s.log[|s.log| - limit] <= now - window);
      Apply(limit, window, s, Acquire(now, member)).answers == s.answers + [ok]
  {
    LogPast(limit, window, events, now);
    AnswerIff(limit, window, Exec(limit, window, events), now, member);
  }

  lemma AnswersAdd(limit: nat, window: nat, s: Admissions, before: seq<bool>, e: Event)
    ensures var anew := Apply(limit, window, s, e);
      Apply(limit, window, Admissions(s.log, before + s.answers), e) == Admissions(anew.log, before + anew.answers)
  {
  }

  /** After a reset everything goes on as from the start. */
  lemma {:induction false} ResetStartsAnew(limit: nat, window: nat, events: seq<Event>, t: int, more: seq<Event>)
    ensures var anew := Exec(limit, window, more);
      Exec(limit, window, events + [Reset(t)] + more) == Admissions(anew.log, Exec(limit, window, events).answers + anew.answers)
  {
    var all := events + [Reset(t)] + more;
    if more == [] {
      assert all[..|all| - 1] == events;
    } else {
      var n := |more| - 1;
      ResetStartsAnew(limit, window, events, t, more[..n]);
      AnswersAdd(limit, window, Exec(limit, window, more[..n]), Exec(limit, window, events).answers, more[n]);
      assert all[..|all| - 1] == events + [Reset(t)] + more[..n] && all[|all| - 1] == more[n];
    }
  }
}
