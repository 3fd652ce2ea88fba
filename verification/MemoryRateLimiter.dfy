/** internal/adapter/security/rate_limiter_memory.go: a sorted slice of
    request times per key, cut by binary search. */
module MemoryRateLimiter {
  import opened Wrappers
  import opened SlidingWindow

  /** The times later than `x`, given times in order. */
  function After(s: Times, x: int): Times {
    if s == [] || s[0] > x then s else After(s[1..], x)
  }

  type Slot = Option<Times>

  function Kept(s: Slot): Times {
    if s.Some? then s.value else []
  }

  predicate Allowed(limit: nat, window: nat, s: Slot, now: int) {
    |After(Kept(s), now - window)| < limit
  }

  function Acquired(limit: nat, window: nat, s: Slot, now: int): Times {
    After(Kept(s), now - window) + if Allowed(limit, window, s, now) then [now] else []
  }

  function Cleaned(window: nat, s: Slot, now: int): Slot {
    if s.None? || After(s.value, now - window) == [] then None else Some(After(s.value, now - window))
  }

  lemma {:induction false} AfterIsDrop(s: Times, x: int, i: nat)
    requires Sorted(s) && i <= |s|
    requires forall j :: 0 <= j < i ==> s[j] <= x
    requires i < |s| ==> s[i] > x
    ensures After(s, x) == s[i..]
  {
    if i == 0 {
    } else {
      AfterIsDrop(s[1..], x, i - 1);
    }
  }

  class MemoryRateLimiter {
    const limit: nat
    const window: nat
    const keyPrefix := "ip:"
    var keys: map<string, Times>

    ghost predicate Valid()
      reads this
    {
      forall k :: k in keys ==> Sorted(keys[k])
    }

    /** No stored time lies after `now`: the clock does not run backwards. */
    ghost predicate Past(now: int)
      reads this
    {
      forall k :: k in keys ==> UpTo(keys[k], now)
    }

    ghost function SlotOf(ip: string): Slot
      reads this
    {
      if keyPrefix + ip in keys then Some(keys[keyPrefix + ip]) else None
    }

    constructor (limit: nat, window: nat)
      ensures this.limit == limit && this.window == window && keys == map[] && Valid()
    {
      this.limit, this.window, keys := limit, window, map[];
    }

    /** sort.Search for the first time after `x`. */
    method Search(s: Times, x: int) returns (i: nat)
      requires Sorted(s)
      ensures i <= |s| && s[i..] == After(s, x)
    {
      i := 0;
      var j := |s|;
      while i < j
        invariant i <= j <= |s|
        invariant forall h :: 0 <= h < i ==> s[h] <= x
        invariant forall h :: j <= h < |s| ==> s[h] > x
      {
        var h := (i + j) / 2;
        if !(s[h] > x) {
          i := h + 1;
        } else {
          j := h;
        }
      }
      AfterIsDrop(s, x, i);
    }

    method FilterTimestamps(timestamps: Times, windowStart: int) returns (cleaned: Times)
      requires Sorted(timestamps)
      ensures cleaned == After(timestamps, windowStart)
    {
      var idx := Search(timestamps, windowStart);
      if idx == |timestamps| {
        return timestamps[..0];
      }
      return timestamps[idx..];
    }

    method Acquire(ip: string, now: int) returns (ok: bool)
      requires Valid() && Past(now)
      modifies this
      ensures Valid() && Past(now)
      ensures ok <==> Allowed(limit, window, old(SlotOf(ip)), now)
      ensures SlotOf(ip) == Some(Acquired(limit, window, old(SlotOf(ip)), now))
      ensures forall other :: other != ip ==> SlotOf(other) == old(SlotOf(other))
    {
      var key := keyPrefix + ip;
      KeysDiffer(ip);
      var timestamps := if key in keys then keys[key] else [];
      var cleaned := FilterTimestamps(timestamps, now - window);
      AfterKeepsOrder(timestamps, now - window, now);
      ok := |cleaned| < limit;
      assert cleaned + [] == cleaned;
      keys := keys[key := if ok then cleaned + [now] else cleaned];
    }

    method Reset(ip: string)
      requires Valid()
      modifies this
      ensures Valid() && SlotOf(ip) == None
      ensures forall other :: other != ip ==> SlotOf(other) == old(SlotOf(other))
    {
      KeysDiffer(ip);
      keys := keys - {keyPrefix + ip};
    }

    method Cleanup(now: int)
      requires Valid()
      modifies this
      ensures Valid()
      ensures forall ip :: SlotOf(ip) == Cleaned(window, old(SlotOf(ip)), now)
    {
      var pending := keys.Keys;
      while pending != {}
        invariant Valid() && pending <= old(keys).Keys
        invariant forall k :: k in pending ==> k in keys && keys[k] == old(keys)[k]
        invariant forall k :: k !in pending ==>
          (if k in keys then Some(keys[k]) else None)
          == Cleaned(window, if k in old(keys) then Some(old(keys)[k]) else None, now)
      {
        var key :| key in pending;
        var idx := Search(keys[key], now - window);
        AfterKeepsOrder(keys[key], now - window, now);
        if idx >= |keys[key]| {
          keys := keys - {key};
        } else {
          keys := keys[key := keys[key][idx..]];
        }
        pending := pending - {key};
      }
    }

    lemma KeysDiffer(ip: string)
      ensures forall other :: other != ip ==> keyPrefix + other != keyPrefix + ip
    {
      forall other: string | other != ip
        ensures keyPrefix + other != keyPrefix + ip
      {
        assert (keyPrefix + other)[3..] == other && (keyPrefix + ip)[3..] == ip;
      }
    }
  }

  lemma {:induction false} AfterKeepsOrder(s: Times, x: int, now: int)
    requires Sorted(s)
    ensures Sorted(After(s, x)) && (UpTo(s, now) ==> UpTo(After(s, x), now))
  {
    if s != [] && s[0] <= x {
      AfterKeepsOrder(s[1..], x, now);
    }
  }

  // Runs.

  datatype State = State(slot: Slot, answers: seq<bool>)

  function Apply(limit: nat, window: nat, s: State, e: Event): State {
    match e
    case Acquire(now, _) => State(Some(Acquired(limit, window, s.slot, now)), s.answers + [Allowed(limit, window, s.slot, now)])
    case Reset(_) => s.(slot := None)
    case Cleanup(now) => s.(slot := Cleaned(window, s.slot, now))
  }

  function Exec(limit: nat, window: nat, events: seq<Event>): State {
    if events == [] then State(None, [])
    else Apply(limit, window, Exec(limit, window, events[..|events| - 1]), events[|events| - 1])
  }

  /** What is kept is the tail of the full log; the rest has left the window. */
  ghost predicate Tail(window: nat, kept: Times, log: Times, now: int) {
    && |kept| <= |log|
    && kept == log[|log| - |kept|..]
    && forall i :: 0 <= i < |log| - |kept| ==> log[i] <= now - window
  }

  lemma {:induction false} CountIsAfter(s: Times, lo: int, now: int)
    requires Sorted(s) && UpTo(s, now)
    ensures |After(s, lo)| == CountIn(s, lo, now)
  {
    if s == [] {
    } else {
      CountIsAfter(s[..|s| - 1], lo, now);
      AfterOfPrefix(s, lo);
    }
  }

  lemma {:induction false} AfterOfPrefix(s: Times, lo: int)
    requires Sorted(s) && s != []
    ensures |After(s, lo)| == |After(s[..|s| - 1], lo)| + if s[|s| - 1] > lo then 1 else 0
  {
    if |s| > 1 && s[0] <= lo {
      assert s[1..][..|s| - 2] == s[..|s| - 1][1..];
      AfterOfPrefix(s[1..], lo);
    }
  }

  lemma {:induction false} AfterOfTail(log: Times, i: nat, lo: int)
    requires Sorted(log) && i <= |log|
    requires forall j :: 0 <= j < i ==> log[j] <= lo
    ensures After(log, lo) == After(log[i..], lo)
  {
    if i == 0 {
    } else {
      assert log[1..][i - 1..] == log[i..];
      AfterOfTail(log[1..], i - 1, lo);
    }
  }

  lemma {:induction false} AfterIsTail(window: nat, s: Times, now: int)
    requires Sorted(s)
    ensures Tail(window, After(s, now - window), s, now)
  {
    if s != [] && s[0] <= now - window {
      AfterIsTail(window, s[1..], now);
    }
  }

  lemma AfterOfKept(window: nat, kept: Times, log: Times, before: int, now: int)
    requires Sorted(log) && Tail(window, kept, log, before) && before <= now
    ensures After(kept, now - window) == After(log, now - window)
  {
    AfterOfTail(log, |log| - |kept|, now - window);
  }

  lemma TailStep(window: nat, kept: Times, log: Times, before: int, now: int)
    requires Sorted(log) && UpTo(log, now) && Tail(window, kept, log, before) && before <= now
    ensures |After(kept, now - window)| == CountIn(log, now - window, now)
    ensures Tail(window, After(kept, now - window), log, now)
  {
    AfterOfKept(window, kept, log, before, now);
    CountIsAfter(log, now - window, now);
    AfterIsTail(window, log, now);
  }

  lemma TailAppend(window: nat, kept: Times, log: Times, now: int)
    requires Tail(window, kept, log, now)
    ensures Tail(window, kept + [now], log + [now], now)
  {
    var d := |log| - |kept|;
    assert (log + [now])[d..] == log[d..] + [now];
  }

  lemma AcquireRefines(limit: nat, window: nat, m: State, w: Admissions, e: Event, kept: Times)
    requires e.Acquire? && m.answers == w.answers && kept == After(Kept(m.slot), e.time - window)
    requires |kept| == CountIn(w.log, e.time - window, e.time) && Tail(window, kept, w.log, e.time)
    ensures var m', w' := Apply(limit, window, m, e), SlidingWindow.Apply(limit, window, w, e);
      m'.answers == w'.answers && Tail(window, Kept(m'.slot), w'.log, e.time)
  {
    if |kept| < limit {
      TailAppend(window, kept, w.log, e.time);
    } else {
      assert kept + [] == kept;
    }
  }

  lemma StepRefines(limit: nat, window: nat, m: State, w: Admissions, e: Event, before: int)
    requires before <= e.time && Sorted(w.log) && UpTo(w.log, e.time)
    requires m.answers == w.answers && Tail(window, Kept(m.slot), w.log, before)
    ensures var m', w' := Apply(limit, window, m, e), SlidingWindow.Apply(limit, window, w, e);
      m'.answers == w'.answers && Tail(window, Kept(m'.slot), w'.log, e.time)
  {
    TailStep(window, Kept(m.slot), w.log, before, e.time);
    if e.Acquire? {
      AcquireRefines(limit, window, m, w, e, After(Kept(m.slot), e.time - window));
    }
  }

  /** On every run, with the cleaner anywhere in it, the memory limiter answers
      as the count over the full log does. */
  lemma {:induction false} MemoryRefinesWindow(limit: nat, window: nat, events: seq<Event>)
    requires InOrder(events)
    ensures Exec(limit, window, events).answers == SlidingWindow.Exec(limit, window, events).answers
    ensures events != [] ==>
      Tail(window, Kept(Exec(limit, window, events).slot), SlidingWindow.Exec(limit, window, events).log, events[|events| - 1].time)
  {
    if events == [] {
    } else {
      var n := |events| - 1;
      var now := events[n].time;
      MemoryRefinesWindow(limit, window, events[..n]);
      var m, w := Exec(limit, window, events[..n]), SlidingWindow.Exec(limit, window, events[..n]);
      LogPast(limit, window, events[..n], now);
      var before := if n > 0 then events[n - 1].time else now;
      StepRefines(limit, window, m, w, events[n], before);
    }
  }

  /** A cleanup drops a key exactly when no allowed request is left in the
      window that ends with it. */
  lemma CleanedIffEmpty(limit: nat, window: nat, events: seq<Event>, now: int)
    requires InOrder(events) && (events != [] ==> events[|events| - 1].time <= now)
    ensures Cleaned(window, Exec(limit, window, events).slot, now).None?
       <==> CountIn(SlidingWindow.Exec(limit, window, events).log, now - window, now) == 0
  {
    MemoryRefinesWindow(limit, window, events);
    LogPast(limit, window, events, now);
    var m, w := Exec(limit, window, events), SlidingWindow.Exec(limit, window, events);
    TailStep(window, Kept(m.slot), w.log, if events == [] then now else events[|events| - 1].time, now);
  }
}
