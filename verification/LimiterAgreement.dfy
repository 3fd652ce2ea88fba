/** The memory limiter, the Redis limiter and the count over the full log,
    compared on the same requests. */
module LimiterAgreement {
  import opened Wrappers
  import opened SlidingWindow
  import Memory = MemoryRateLimiter
  import Redis = RedisRateLimiter

  /** With a window of whole seconds all three give the same answers on every
      run, whatever the memory limiter's cleaner does. */
  lemma ThreeAgree(limit: nat, window: nat, events: seq<Event>)
    requires window % 1000 == 0 && Redis.WellFormed(events)
    ensures Exec(limit, window, events).answers
         == Memory.Exec(limit, window, events).answers
         == Redis.Exec(limit, window, events).answers
  {
    Memory.MemoryRefinesWindow(limit, window, events);
    var _ := Redis.RunAgrees(limit, window, events);
  }

  ghost predicate RedisAgrees(limit: nat, window: nat) {
    forall events :: Redis.WellFormed(events) ==>
      Redis.Exec(limit, window, events).answers == Exec(limit, window, events).answers
  }

  lemma {:induction false} ZeroRefuses(window: nat, events: seq<Event>)
    ensures Redis.Exec(0, window, events).answers == Exec(0, window, events).answers
  {
    if events == [] {
    } else {
      ZeroRefuses(window, events[..|events| - 1]);
    }
  }

  // Otherwise EXPIRE, which takes whole seconds, drops the key too early.

  function Name(i: nat): string {
    seq(i, _ => 'x')
  }

  /** n requests at time 0. */
  function Volley(n: nat): (events: seq<Event>)
    ensures |events| == n
    ensures forall i :: 0 <= i < n ==> events[i] == Acquire(0, Name(i))
  {
    seq(n, i requires 0 <= i < n => Acquire(0, Name(i)))
  }

  lemma VolleyGrows(n: nat)
    requires n > 0
    ensures Volley(n)[..n - 1] == Volley(n - 1)
  {
  }

  ghost predicate AllAtZero(s: Times, n: nat) {
    |s| == n && forall i :: 0 <= i < n ==> s[i] == 0
  }

  lemma {:induction false} AllCounted(s: Times, n: nat, lo: int, hi: int)
    requires AllAtZero(s, n) && lo < 0 <= hi
    ensures CountIn(s, lo, hi) == n
  {
    if n == 0 {
    } else {
      AllCounted(s[..n - 1], n - 1, lo, hi);
    }
  }

  ghost predicate AfterVolley(n: nat, window: nat, s: Redis.State, w: Admissions) {
    && s.answers == w.answers && AllAtZero(w.log, n)
    && |s.names| == n && (forall i :: 0 <= i < n ==> s.names[i] == Name(i))
    && (if n == 0 || window < 1000 then s.slot == None
        else s.slot == Some(Redis.SortedSet(Redis.Pairs(s.names, w.log, 0), 1000 * Redis.Seconds(window))))
  }

  lemma {:induction false} PairsAtZero(names: seq<string>, log: Times, n: nat, from: nat, max: int)
    requires AllAtZero(log, n) && |names| == n && from <= n && max < 0
    ensures Redis.RemoveByScore(Redis.Pairs(names, log, from), max) == Redis.Pairs(names, log, from)
    decreases n - from
  {
  }

  lemma NamesDistinct(names: seq<string>)
    requires forall i :: 0 <= i < |names| ==> names[i] == Name(i)
    ensures Redis.Distinct(names)
  {
  }

  lemma VolleyKept(window: nat, n: nat, s: Redis.State, w: Admissions)
    requires window > 0 && AfterVolley(n, window, s, w)
    ensures var kept := Redis.RemoveByScore(Redis.Live(s.slot, 0), 0 - window);
      if window < 1000 then kept == map[] else kept == Redis.Pairs(s.names, w.log, 0) && |kept| == n
  {
    var start: int := 0 - window;
    NamesDistinct(s.names);
    PairsAtZero(s.names, w.log, n, 0, start);
    Redis.PairsSize(s.names, w.log, 0);
    assert Redis.RemoveByScore(map[], start) == map[];
  }

  lemma VolleyStep(limit: nat, window: nat, n: nat, s: Redis.State, w: Admissions)
    requires n < limit && window > 0 && AfterVolley(n, window, s, w)
    ensures AfterVolley(n + 1, window, Redis.Apply(limit, window, s, Acquire(0, Name(n))), Apply(limit, window, w, Acquire(0, Name(n))))
  {
    var start: int := 0 - window;
    AllCounted(w.log, n, start, 0);
    VolleyKept(window, n, s, w);
    NamesDistinct(s.names + [Name(n)]);
    Redis.PairsGrow(s.names, w.log, 0, Name(n), 0);
  }

  lemma {:induction false} VolleyRuns(limit: nat, window: nat, n: nat)
    requires n <= limit && window > 0
    ensures AfterVolley(n, window, Redis.Exec(limit, window, Volley(n)), Exec(limit, window, Volley(n)))
  {
    if n == 0 {
    } else {
      VolleyGrows(n);
      VolleyRuns(limit, window, n - 1);
      VolleyStep(limit, window, n - 1, Redis.Exec(limit, window, Volley(n - 1)), Exec(limit, window, Volley(n - 1)));
    }
  }

  lemma LastDiffers(limit: nat, window: nat, s: Redis.State, w: Admissions)
    requires limit > 0 && window % 1000 != 0 && AfterVolley(limit, window, s, w)
    ensures var last := Acquire(1000 * Redis.Seconds(window), Name(limit));
      Redis.Apply(limit, window, s, last).answers == s.answers + [true] &&
      Apply(limit, window, w, last).answers == s.answers + [false]
  {
    var now := 1000 * Redis.Seconds(window);
    AllCounted(w.log, limit, now - window, now);
    assert Redis.RemoveByScore(map[], now - window) == map[];
  }

  function LateRequest(limit: nat, window: nat): (events: seq<Event>) {
    Volley(limit) + [Acquire(1000 * Redis.Seconds(window), Name(limit))]
  }

  lemma LateRequestWellFormed(limit: nat, window: nat)
    ensures Redis.WellFormed(LateRequest(limit, window))
  {
  }

  /** A full burst at time 0 and one more request in the last, partial second
      of its window: refused by the count, allowed by Redis. */
  lemma PartialSecondDiffers(limit: nat, window: nat)
    requires limit > 0 && window % 1000 != 0
    ensures Redis.WellFormed(LateRequest(limit, window))
    ensures Redis.Exec(limit, window, LateRequest(limit, window)).answers != Exec(limit, window, LateRequest(limit, window)).answers
  {
    LateRequestWellFormed(limit, window);
    VolleyRuns(limit, window, limit);
    assert LateRequest(limit, window)[..limit] == Volley(limit);
    var s := Redis.Exec(limit, window, Volley(limit));
    LastDiffers(limit, window, s, Exec(limit, window, Volley(limit)));
    assert (s.answers + [true])[|s.answers|] != (s.answers + [false])[|s.answers|];
  }

  /** The Redis limiter answers as the count does on every run if and only if
      it refuses everything anyway or its window is a whole number of seconds. */
  lemma RedisAgreesIff(limit: nat, window: nat)
    ensures RedisAgrees(limit, window) <==> limit == 0 || window % 1000 == 0
  {
    if limit == 0 {
      forall events
        ensures Redis.Exec(limit, window, events).answers == Exec(limit, window, events).answers
      {
        ZeroRefuses(window, events);
      }
    } else if window % 1000 == 0 {
      forall events | Redis.WellFormed(events)
        ensures Redis.Exec(limit, window, events).answers == Exec(limit, window, events).answers
      {
        ThreeAgree(limit, window, events);
      }
    } else {
      PartialSecondDiffers(limit, window);
    }
  }
}
