/** internal/adapter/security/rate_limiter_redis.go: a sorted set of requests
    per key, handled by one script that runs as a single step. Times are
    milliseconds, as the script's are. */
module RedisRateLimiter {
  import opened Wrappers
  import opened SlidingWindow

  /** Request names with their times as scores, and the key's deadline. */
  datatype SortedSet = SortedSet(scores: map<string, int>, deadline: int)

  type Slot = Option<SortedSet>

  /** A key is there until its deadline is reached. */
  function Live(s: Slot, now: int): map<string, int> {
    if s.Some? && now < s.value.deadline then s.value.scores else map[]
  }

  /** ZREMRANGEBYSCORE key 0 max */
  function RemoveByScore(scores: map<string, int>, max: int): map<string, int> {
    map m | m in scores && !(0 <= scores[m] <= max) :: scores[m]
  }

  function Seconds(window: nat): nat {
    window / 1000
  }

  predicate Allowed(limit: nat, window: nat, s: Slot, now: int) {
    |RemoveByScore(Live(s, now), now - window)| < limit
  }

  /** The script's effect on the key. EXPIRE with 0 seconds deletes it. */
  function Scripted(limit: nat, window: nat, s: Slot, now: int, member: string): Slot {
    var kept := RemoveByScore(Live(s, now), now - window);
    if !Allowed(limit, window, s, now) then
      (if s.Some? && now < s.value.deadline then Some(s.value.(scores := kept)) else None)
    else if Seconds(window) == 0 then None
    else Some(SortedSet(kept[member := now], now + 1000 * Seconds(window)))
  }

  class RedisRateLimiter {
    const limit: nat
    const window: nat
    const keyPrefix := "auth:rate_limit:ip:"
    var keys: map<string, SortedSet>

    ghost function SlotOf(ip: string): Slot
      reads this
    {
      if keyPrefix + ip in keys then Some(keys[keyPrefix + ip]) else None
    }

    constructor (limit: nat, window: nat)
      ensures this.limit == limit && this.window == window && keys == map[]
    {
      this.limit, this.window, keys := limit, window, map[];
    }

    method Acquire(ip: string, now: int, member: string) returns (ok: bool)
      modifies this
      ensures ok <==> Allowed(limit, window, old(SlotOf(ip)), now)
      ensures SlotOf(ip) == Scripted(limit, window, old(SlotOf(ip)), now, member)
      ensures forall other :: other != ip ==> SlotOf(other) == old(SlotOf(other))
    {
      var key := keyPrefix + ip;
      KeysDiffer(ip);
      if key in keys && now >= keys[key].deadline {
        keys := keys - {key};
      }
      if key in keys {
        keys := keys[key := keys[key].(scores := RemoveByScore(keys[key].scores, now - window))];
      }
      var count := if key in keys then |keys[key].scores| else 0;
      if count >= limit {
        return false;
      }
      var scores := if key in keys then keys[key].scores else map[];
      if Seconds(window) == 0 {
        keys := keys - {key};
      } else {
        keys := keys[key := SortedSet(scores[member := now], now + 1000 * Seconds(window))];
      }
      return true;
    }

    method Reset(ip: string)
      modifies this
      ensures SlotOf(ip) == None
      ensures forall other :: other != ip ==> SlotOf(other) == old(SlotOf(other))
    {
      KeysDiffer(ip);
      keys := keys - {keyPrefix + ip};
    }

    lemma KeysDiffer(ip: string)
      ensures forall other :: other != ip ==> keyPrefix + other != keyPrefix + ip
    {
      var n := |keyPrefix|;
      forall other: string | other != ip
        ensures keyPrefix + other != keyPrefix + ip
      {
        assert (keyPrefix + other)[n..] == other && (keyPrefix + ip)[n..] == ip;
      }
    }
  }

  // Runs.

  /** `names` are the members of the allowed requests since the last Reset. */
  datatype State = State(slot: Slot, answers: seq<bool>, names: seq<string>)

  function Apply(limit: nat, window: nat, s: State, e: Event): State {
    match e
    case Acquire(now, member) =>
      var ok := Allowed(limit, window, s.slot, now);
      State(Scripted(limit, window, s.slot, now, member), s.answers + [ok], if ok then s.names + [member] else s.names)
    case Reset(_) => s.(slot := None, names := [])
    case Cleanup(_) => s
  }

  function Exec(limit: nat, window: nat, events: seq<Event>): State {
    if events == [] then State(None, [], [])
    else Apply(limit, window, Exec(limit, window, events[..|events| - 1]), events[|events| - 1])
  }

  /** Request names are unique and times are positive, as uuid.New and
      UnixMilli provide them; the clock does not run backwards. */
  ghost predicate WellFormed(events: seq<Event>) {
    && InOrder(events)
    && (forall i :: 0 <= i < |events| ==> events[i].time >= 0)
    && (forall i, j :: 0 <= i < j < |events| && events[i].Acquire? && events[j].Acquire? ==> events[i].member != events[j].member)
  }

  /** The last requests of the log, by name. */
  function Pairs(names: seq<string>, log: Times, from: nat): map<string, int>
    requires |names| == |log| && from <= |log|
    decreases |log| - from
  {
    if from == |log| then map[] else Pairs(names, log, from + 1)[names[from] := log[from]]
  }

  ghost predicate Distinct(names: seq<string>) {
    forall i, j :: 0 <= i < j < |names| ==> names[i] != names[j]
  }

  lemma {:induction false} PairsFresh(names: seq<string>, log: Times, from: nat, name: string)
    requires |names| == |log| && from <= |log|
    requires forall i :: from <= i < |names| ==> names[i] != name
    ensures name !in Pairs(names, log, from)
    decreases |log| - from
  {
    if from == |log| {
    } else {
      PairsFresh(names, log, from + 1, name);
    }
  }

  lemma {:induction false} PairsSize(names: seq<string>, log: Times, from: nat)
    requires |names| == |log| && from <= |log| && Distinct(names)
    ensures |Pairs(names, log, from)| == |log| - from
    decreases |log| - from
  {
    if from == |log| {
    } else {
      PairsSize(names, log, from + 1);
      PairsFresh(names, log, from + 1, names[from]);
    }
  }

  lemma RemoveOne(scores: map<string, int>, name: string, score: int, max: int)
    requires name !in scores && 0 <= score
    ensures RemoveByScore(scores[name := score], max) ==
            if score <= max then RemoveByScore(scores, max) else RemoveByScore(scores, max)[name := score]
  {
  }

  lemma {:induction false} PairsCut(names: seq<string>, log: Times, from: nat, upto: nat, max: int)
    requires |names| == |log| && from <= upto <= |log| && Distinct(names)
    requires forall i :: 0 <= i < |log| ==> log[i] >= 0
    requires forall i :: from <= i < upto ==> log[i] <= max
    requires forall i :: upto <= i < |log| ==> log[i] > max
    ensures RemoveByScore(Pairs(names, log, from), max) == Pairs(names, log, upto)
    decreases |log| - from
  {
    if from == |log| {
    } else {
      PairsFresh(names, log, from + 1, names[from]);
      RemoveOne(Pairs(names, log, from + 1), names[from], log[from], max);
      PairsCut(names, log, from + 1, if from == upto then upto + 1 else upto, max);
    }
  }

  lemma {:induction false} PairsGrow(names: seq<string>, log: Times, from: nat, name: string, now: int)
    requires |names| == |log| && from <= |log| && Distinct(names + [name])
    ensures Pairs(names + [name], log + [now], from) == Pairs(names, log, from)[name := now]
    decreases |log| - from
  {
    if from < |log| {
      PairsGrow(names, log, from + 1, name, now);
      assert (names + [name])[from] == names[from] && (names + [name])[|names|] == name;
    } else {
      assert Pairs(names + [name], log + [now], from + 1) == map[];
    }
  }

  /** The set holds the log from entry `from` on, under the deadline of its
      newest entry; everything before has left the window. */
  ghost predicate Agrees(window: nat, s: State, w: Admissions, now: int, from: nat) {
    && s.answers == w.answers
    && |s.names| == |w.log| && Distinct(s.names)
    && Sorted(w.log) && UpTo(w.log, now) && (forall i :: 0 <= i < |w.log| ==> w.log[i] >= 0)
    && from <= |w.log|
    && (forall i :: 0 <= i < from ==> w.log[i] <= now - window)
    && (if s.slot.None? then from == |w.log|
        else s.slot.value.scores == Pairs(s.names, w.log, from)
             && forall i :: 0 <= i < |w.log| ==> w.log[i] + window <= s.slot.value.deadline)
  }

  function FirstAfter(log: Times, lo: int, from: nat): (i: nat)
    requires from <= |log|
    ensures from <= i <= |log|
    ensures forall j :: from <= j < i ==> log[j] <= lo
    ensures i < |log| ==> log[i] > lo
    decreases |log| - from
  {
    if from < |log| && log[from] <= lo then FirstAfter(log, lo, from + 1) else from
  }

  lemma {:induction false} CountIsSuffix(log: Times, from: nat, lo: int, hi: int)
    requires from <= |log| && UpTo(log, hi)
    requires forall i :: 0 <= i < from ==> log[i] <= lo
    requires forall i :: from <= i < |log| ==> log[i] > lo
    ensures CountIn(log, lo, hi) == |log| - from
  {
    if log == [] {
    } else {
      CountIsSuffix(log[..|log| - 1], if from == |log| then from - 1 else from, lo, hi);
    }
  }

  /** Where the live set starts in the log: a key past its deadline holds
      nothing, and all its requests have left the window. */
  lemma LiveIs(window: nat, s: State, w: Admissions, before: int, from: nat, now: int) returns (first: nat)
    requires Agrees(window, s, w, before, from) && before <= now
    ensures first <= |w.log| && Live(s.slot, now) == Pairs(s.names, w.log, first)
    ensures forall i :: 0 <= i < first ==> w.log[i] <= now - window
    ensures s.slot.None? || now >= s.slot.value.deadline ==> first == |w.log|
  {
    first := if s.slot.Some? && now < s.slot.value.deadline then from else |w.log|;
  }

  /** What the script finds after removing what is out of the window. */
  lemma Script(window: nat, names: seq<string>, log: Times, first: nat, now: int) returns (kept: nat)
    requires |names| == |log| && Distinct(names) && Sorted(log) && UpTo(log, now)
    requires forall i :: 0 <= i < |log| ==> log[i] >= 0
    requires first <= |log| && forall i :: 0 <= i < first ==> log[i] <= now - window
    ensures first <= kept <= |log| && forall i :: 0 <= i < kept ==> log[i] <= now - window
    ensures RemoveByScore(Pairs(names, log, first), now - window) == Pairs(names, log, kept)
    ensures |Pairs(names, log, kept)| == CountIn(log, now - window, now)
  {
    kept := FirstAfter(log, now - window, first);
    PairsCut(names, log, first, kept, now - window);
    PairsSize(names, log, kept);
    CountIsSuffix(log, kept, now - window, now);
  }

  lemma AllowedAgrees(window: nat, s: State, w: Admissions, before: int, from: nat, now: int, member: string, kept: nat) returns (next: nat)
    requires window % 1000 == 0 && Agrees(window, s, w, before, from) && before <= now && now >= 0
    requires member !in s.names
    requires kept <= |w.log| && forall i :: 0 <= i < kept ==> w.log[i] <= now - window
    ensures var slot := if Seconds(window) == 0 then None
                        else Some(SortedSet(Pairs(s.names, w.log, kept)[member := now], now + 1000 * Seconds(window)));
      Agrees(window, State(slot, s.answers + [true], s.names + [member]), Admissions(w.log + [now], w.answers + [true]), now, next)
  {
    PairsGrow(s.names, w.log, kept, member, now);
    next := if Seconds(window) == 0 then |w.log| + 1 else kept;
    assert window == 1000 * Seconds(window);
  }

  lemma RefusedAgrees(window: nat, s: State, w: Admissions, before: int, from: nat, now: int, first: nat, kept: nat) returns (next: nat)
    requires Agrees(window, s, w, before, from) && before <= now
    requires first <= kept <= |w.log| && forall i :: 0 <= i < kept ==> w.log[i] <= now - window
    requires s.slot.None? || now >= s.slot.value.deadline ==> first == |w.log|
    ensures var slot := if s.slot.Some? && now < s.slot.value.deadline
                        then Some(s.slot.value.(scores := Pairs(s.names, w.log, kept))) else None;
      Agrees(window, State(slot, s.answers + [false], s.names), Admissions(w.log, w.answers + [false]), now, next)
  {
    next := kept;
  }

  lemma AcquireAgrees(limit: nat, window: nat, s: State, w: Admissions, before: int, from: nat, now: int, member: string) returns (next: nat)
    requires window % 1000 == 0 && Agrees(window, s, w, before, from) && before <= now && now >= 0
    requires member !in s.names
    ensures Agrees(window, Apply(limit, window, s, Acquire(now, member)), SlidingWindow.Apply(limit, window, w, Acquire(now, member)), now, next)
  {
    var first := LiveIs(window, s, w, before, from, now);
    var kept := Script(window, s.names, w.log, first, now);
    if Allowed(limit, window, s.slot, now) {
      next := AllowedAgrees(window, s, w, before, from, now, member, kept);
    } else {
      next := RefusedAgrees(window, s, w, before, from, now, first, kept);
    }
  }

  lemma StepAgrees(limit: nat, window: nat, s: State, w: Admissions, before: int, from: nat, e: Event) returns (next: nat)
    requires window % 1000 == 0 && Agrees(window, s, w, before, from) && before <= e.time && e.time >= 0
    requires e.Acquire? ==> e.member !in s.names
    ensures Agrees(window, Apply(limit, window, s, e), SlidingWindow.Apply(limit, window, w, e), e.time, next)
  {
    match e
    case Acquire(now, member) => next := AcquireAgrees(limit, window, s, w, before, from, now, member);
    case Reset(_) => next := 0;
    case Cleanup(_) => next := from;
  }

  lemma {:induction false} RunAgrees(limit: nat, window: nat, events: seq<Event>) returns (from: nat)
    requires window % 1000 == 0 && WellFormed(events)
    ensures Agrees(window, Exec(limit, window, events), SlidingWindow.Exec(limit, window, events),
                   if events == [] then 0 else events[|events| - 1].time, from)
    ensures forall m :: m in Exec(limit, window, events).names ==> exists i :: 0 <= i < |events| && events[i].Acquire? && events[i].member == m
  {
    if events == [] {
      from := 0;
    } else {
      var n := |events| - 1;
      from := RunAgrees(limit, window, events[..n]);
      var s, w := Exec(limit, window, events[..n]), SlidingWindow.Exec(limit, window, events[..n]);
      assert events[n].Acquire? ==> events[n].member !in s.names;
      from := StepAgrees(limit, window, s, w, if n == 0 then 0 else events[n - 1].time, from, events[n]);
      forall m | m in Exec(limit, window, events).names
        ensures exists i :: 0 <= i < |events| && events[i].Acquire? && events[i].member == m
      {
        if m in s.names {
          var i :| 0 <= i < n && events[..n][i].Acquire? && events[..n][i].member == m;
          assert events[i].member == m;
        } else {
          assert events[n].member == m;
        }
      }
    }
  }
}
