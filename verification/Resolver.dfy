/** internal/adapter/resolver/helper.go and user.go: looking up user ids by
    uid and uids by id through a cache that other clients share. */
module Resolver {
  import opened Wrappers
  import opened Decimal

  /** The identity columns of a user row. Rows are never removed: deleting a
      user only sets deleted_at, which these lookups do not read. */
  datatype Row = Row(id: Int64, uid: string)

  type Table = seq<Row>

  /** The two instances of mapperIDs. */
  datatype Key = ByUid(uid: string) | ById(id: Int64)

  datatype Value = Id(id: Int64) | Uid(uid: string)

  type Cache = map<string, string>

  datatype Error = ErrUserNotFound

  /** Ids come from a sequence that starts at 1; uids are generated. */
  predicate TableInv(t: Table) {
    && (forall i :: 0 <= i < |t| ==> t[i].id >= 1 && t[i].uid != "")
    && (forall i, j :: 0 <= i < j < |t| ==> t[i].id != t[j].id && t[i].uid != t[j].uid)
  }

  predicate Matches(r: Row, k: Key) {
    match k
    case ByUid(uid) => r.uid == uid
    case ById(id) => r.id == id
  }

  /** The row a key names. */
  function Find(t: Table, k: Key): (r: Option<Row>)
    ensures r.Some? ==> r.value in t && Matches(r.value, k)
    ensures r.None? ==> forall i :: 0 <= i < |t| ==> !Matches(t[i], k)
  {
    if t == [] then None
    else if Matches(t[|t| - 1], k) then Some(t[|t| - 1])
    else Find(t[..|t| - 1], k)
  }

  function ValueOf(k: Key, r: Row): Value {
    if k.ByUid? then Id(r.id) else Uid(r.uid)
  }

  function Lookup(t: Table, k: Key): Option<Value> {
    var r := Find(t, k);
    if r.Some? then Some(ValueOf(k, r.value)) else None
  }

  function CacheKey(prefix: string, k: Key): string {
    match k
    case ByUid(uid) => prefix + ":" + uid + ":id"
    case ById(id) => prefix + ":id:" + FormatInt(id) + ":uid"
  }

  function Encode(v: Value): string {
    match v
    case Id(id) => FormatInt(id)
    case Uid(uid) => uid
  }

  function Convert(k: Key, s: string): Value {
    if k.ByUid? then Id(ParseInt(s)) else Uid(s)
  }

  /** Every cached user entry is what the table says. */
  ghost predicate CacheInv(prefix: string, t: Table, c: Cache) {
    forall k :: CacheKey(prefix, k) in c ==> Lookup(t, k).Some? && c[CacheKey(prefix, k)] == Encode(Lookup(t, k).value)
  }

  lemma ConvertEncode(k: Key, r: Row)
    ensures Convert(k, Encode(ValueOf(k, r))) == ValueOf(k, r)
  {
    ParseFormat(r.id);
  }

  lemma KeyShape(prefix: string, k: Key)
    ensures |CacheKey(prefix, k)| >= 3
    ensures k.ByUid? <==> CacheKey(prefix, k)[|CacheKey(prefix, k)| - 3] == ':'
  {
  }

  /** No two lookups share a cache key, of the same kind or not. */
  lemma CacheKeyInjective(prefix: string, a: Key, b: Key)
    requires CacheKey(prefix, a) == CacheKey(prefix, b)
    ensures a == b
  {
    var x, p := CacheKey(prefix, a), |prefix|;
    KeyShape(prefix, a);
    KeyShape(prefix, b);
    if a.ByUid? {
      assert x[p + 1..|x| - 3] == a.uid && x[p + 1..|x| - 3] == b.uid;
    } else {
      assert x[p + 4..|x| - 4] == FormatInt(a.id) && x[p + 4..|x| - 4] == FormatInt(b.id);
      ParseFormat(a.id);
      ParseFormat(b.id);
    }
  }

  // What other clients may do meanwhile.

  datatype Other =
    | Create(row: Row)          // a new user
    | Fill(k: Key)              // another lookup caches what it fetched
    | Drop(key: string)         // invalidation or expiry of any key
    | Touch                     // updates and soft deletes leave identities alone

  predicate Allowed(t: Table, o: Other) {
    match o
    case Create(row) => TableInv(t + [row])
    case Fill(k) => Lookup(t, k).Some?
    case Drop(_) => true
    case Touch => true
  }

  function TableAfter(t: Table, o: Other): Table {
    if o.Create? then t + [o.row] else t
  }

  function CacheAfter(prefix: string, t: Table, c: Cache, o: Other): Cache {
    match o
    case Create(_) => c
    case Fill(k) => if Lookup(t, k).Some? then c[CacheKey(prefix, k) := Encode(Lookup(t, k).value)] else c
    case Drop(key) => c - {key}
    case Touch => c
  }

  /** A key names at most one row. */
  lemma FindUnique(t: Table, k: Key, i: nat)
    requires TableInv(t) && i < |t| && Matches(t[i], k)
    ensures Find(t, k) == Some(t[i])
  {
  }

  lemma LookupGrows(t: Table, more: Table, k: Key)
    requires TableInv(t + more) && Lookup(t, k).Some?
    ensures Lookup(t + more, k) == Lookup(t, k)
  {
    var r := Find(t, k).value;
    var i :| 0 <= i < |t| && t[i] == r;
    assert (t + more)[i] == r;
    FindUnique(t + more, k, i);
  }

  /** Over every run of user creation, update and deletion, lookups,
      invalidations and expiry, the cache stays right. */
  lemma OtherKeepsCache(prefix: string, t: Table, c: Cache, o: Other)
    requires TableInv(t) && CacheInv(prefix, t, c) && Allowed(t, o)
    ensures TableInv(TableAfter(t, o)) && CacheInv(prefix, TableAfter(t, o), CacheAfter(prefix, t, c, o))
  {
    forall k | CacheKey(prefix, k) in CacheAfter(prefix, t, c, o)
      ensures Lookup(TableAfter(t, o), k).Some? && CacheAfter(prefix, t, c, o)[CacheKey(prefix, k)] == Encode(Lookup(TableAfter(t, o), k).value)
    {
      match o
      case Create(row) => LookupGrows(t, [row], k);
      case Fill(f) =>
        if CacheKey(prefix, k) == CacheKey(prefix, f) {
          CacheKeyInjective(prefix, k, f);
        }
      case Drop(_) =>
      case Touch =>
    }
  }

  /** The table and the cache after a run; a step that is not allowed is none. */
  function After(prefix: string, steps: seq<Other>): (Table, Cache) {
    if steps == [] then ([], map[])
    else
      var (t, c) := After(prefix, steps[..|steps| - 1]);
      var o := steps[|steps| - 1];
      if Allowed(t, o) then (TableAfter(t, o), CacheAfter(prefix, t, c, o)) else (t, c)
  }

  /** Whatever the run, a cached answer is the table's. */
  lemma {:induction false} CacheAgrees(prefix: string, steps: seq<Other>, k: Key)
    ensures var (t, c) := After(prefix, steps);
      && TableInv(t) && CacheInv(prefix, t, c)
      && (CacheKey(prefix, k) in c ==> Lookup(t, k) == Some(Convert(k, c[CacheKey(prefix, k)])))
  {
    if steps != [] {
      var (t, c) := After(prefix, steps[..|steps| - 1]);
      var o := steps[|steps| - 1];
      CacheAgrees(prefix, steps[..|steps| - 1], k);
      if Allowed(t, o) {
        OtherKeepsCache(prefix, t, c, o);
      }
    }
    var (t, c) := After(prefix, steps);
    if CacheKey(prefix, k) in c {
      ConvertEncode(k, Find(t, k).value);
    }
  }

  /** Every step of the run was allowed. */
  predicate AllAllowed(prefix: string, steps: seq<Other>) {
    steps == [] || (AllAllowed(prefix, steps[..|steps| - 1]) && Allowed(After(prefix, steps[..|steps| - 1]).0, steps[|steps| - 1]))
  }

  /** Step i cached the answer for k, and nothing dropped its entry since. */
  predicate FilledAt(steps: seq<Other>, k: Key, entry: string, i: int) {
    0 <= i < |steps| && steps[i] == Fill(k) && forall j :: i < j < |steps| ==> steps[j] != Drop(entry)
  }

  ghost predicate Filled(steps: seq<Other>, k: Key, entry: string) {
    exists i :: FilledAt(steps, k, entry, i)
  }

  lemma FilledNext(steps: seq<Other>, o: Other, k: Key, entry: string)
    ensures Filled(steps + [o], k, entry) <==> o == Fill(k) || (o != Drop(entry) && Filled(steps, k, entry))
  {
    var all := steps + [o];
    assert all[|steps|] == o && forall i :: 0 <= i < |steps| ==> all[i] == steps[i];
    if o == Fill(k) {
      assert FilledAt(all, k, entry, |steps|);
    } else if Filled(all, k, entry) {
      var i :| FilledAt(all, k, entry, i);
      assert FilledAt(steps, k, entry, i);
    } else if Filled(steps, k, entry) {
      var i :| FilledAt(steps, k, entry, i);
      assert o == Drop(entry) || FilledAt(all, k, entry, i);
    }
  }

  lemma CachedStep(prefix: string, t: Table, c: Cache, o: Other, k: Key)
    requires Allowed(t, o)
    ensures CacheKey(prefix, k) in CacheAfter(prefix, t, c, o)
       <==> o == Fill(k) || (o != Drop(CacheKey(prefix, k)) && CacheKey(prefix, k) in c)
  {
    if o.Fill? && CacheKey(prefix, o.k) == CacheKey(prefix, k) {
      CacheKeyInjective(prefix, o.k, k);
    }
  }

  /** An answer is cached exactly from a fill on until the next drop of its
      own key. */
  lemma {:induction false} CachedIff(prefix: string, steps: seq<Other>, k: Key)
    requires AllAllowed(prefix, steps)
    ensures CacheKey(prefix, k) in After(prefix, steps).1 <==> Filled(steps, k, CacheKey(prefix, k))
  {
    if steps == [] {
    } else {
      var n := |steps| - 1;
      var (t, c) := After(prefix, steps[..n]);
      CachedIff(prefix, steps[..n], k);
      CachedStep(prefix, t, c, steps[n], k);
      FilledNext(steps[..n], steps[n], k, CacheKey(prefix, k));
      assert steps == steps[..n] + [steps[n]];
    }
  }

  /** A user once created is found by both names for good. */
  lemma {:induction false} CreatedIsFound(prefix: string, steps: seq<Other>, i: nat)
    requires i < |steps| && steps[i].Create? && Allowed(After(prefix, steps[..i]).0, steps[i])
    ensures var t := After(prefix, steps).0;
      var row := steps[i].row;
      Lookup(t, ByUid(row.uid)) == Some(Id(row.id)) && Lookup(t, ById(row.id)) == Some(Uid(row.uid))
  {
    var n := |steps| - 1;
    var row := steps[i].row;
    var t := After(prefix, steps[..n]).0;
    if i == n {
      FindUnique(t + [row], ByUid(row.uid), |t|);
      FindUnique(t + [row], ById(row.id), |t|);
    } else {
      assert steps[..n][..i] == steps[..i];
      CreatedIsFound(prefix, steps[..n], i);
      if steps[n].Create? && Allowed(t, steps[n]) {
        LookupGrows(t, [steps[n].row], ByUid(row.uid));
        LookupGrows(t, [steps[n].row], ById(row.id));
      }
    }
  }

  /** Rows already there answer as before. */
  ghost predicate Grown(a: Table, b: Table) {
    forall k :: Lookup(a, k).Some? ==> Lookup(b, k) == Lookup(a, k)
  }

  // Where a goroutine started for one uncached key stands.
  datatype Stage =
    | Fetching
    | Caching(value: Value)
    | Storing(value: Value)
    | Sending(found: bool)
    | Finished(found: bool)

  function StageRank(s: Stage): nat {
    match s
    case Fetching => 5
    case Caching(_) => 4
    case Storing(_) => 3
    case Sending(_) => 2
    case Finished(_) => 0
  }

  ghost function Work(stages: seq<Stage>): nat {
    if stages == [] then 0 else Work(stages[..|stages| - 1]) + StageRank(stages[|stages| - 1])
  }

  lemma {:induction false} WorkUpdate(stages: seq<Stage>, i: nat, s: Stage)
    requires i < |stages|
    ensures Work(stages[i := s]) == Work(stages) - StageRank(stages[i]) + StageRank(s)
  {
    var n := |stages| - 1;
    if i == n {
      assert stages[i := s][..n] == stages[..n];
    } else {
      assert stages[i := s][..n] == stages[..n][i := s];
      WorkUpdate(stages[..n], i, s);
    }
  }

  ghost predicate Missing(t: Table, keys: seq<Key>) {
    exists i :: 0 <= i < |keys| && Lookup(t, keys[i]).None?
  }

  /** What holds of the goroutine for key k at stage s. */
  ghost predicate StageOk(t: Table, results: map<Key, Value>, k: Key, s: Stage) {
    match s
    case Fetching => true
    case Caching(v) => Lookup(t, k) == Some(v)
    case Storing(v) => Lookup(t, k) == Some(v)
    case Sending(found) => found ==> k in results
    case Finished(found) => found ==> k in results
  }

  /** A cached string that stands for the table's answer. */
  ghost predicate Faithful(t: Table, k: Key, cached: Option<string>) {
    cached.Some? ==> Lookup(t, k).Some? && cached.value == Encode(Lookup(t, k).value)
  }

  ghost predicate ResultsOk(t: Table, results: map<Key, Value>) {
    forall k :: k in results ==> Lookup(t, k) == Some(results[k])
  }

  function Members(keys: seq<Key>): set<Key> {
    set k | k in keys
  }

  lemma MembersAppend(keys: seq<Key>, k: Key)
    ensures Members(keys + [k]) == Members(keys) + {k}
  {
  }

  lemma GrownTrans(a: Table, b: Table, c: Table)
    requires Grown(a, b) && Grown(b, c)
    ensures Grown(a, c)
  {
  }

  lemma MissingBefore(a: Table, b: Table, some: seq<Key>, keys: seq<Key>)
    requires Grown(a, b) && Missing(b, some) && Members(some) <= Members(keys)
    ensures Missing(a, keys)
  {
    var i :| 0 <= i < |some| && Lookup(b, some[i]).None?;
    assert some[i] in Members(some);
    var j :| 0 <= j < |keys| && keys[j] == some[i];
    assert Lookup(a, keys[j]).None?;
  }

  lemma NothingMissing(t: Table, keys: seq<Key>, results: map<Key, Value>)
    requires ResultsOk(t, results) && results.Keys == Members(keys)
    ensures !Missing(t, keys)
  {
  }

  /** Between two statements of FetchAll; t0 is the table it started with. */
  ghost predicate FetchInv(t0: Table, t: Table, uncached: seq<Key>, cachedOnes: set<Key>,
                           results: map<Key, Value>, stages: seq<Stage>, errChan: seq<bool>) {
    && |stages| == |uncached|
    && ResultsOk(t, results)
    && cachedOnes <= results.Keys <= cachedOnes + Members(uncached)
    && (forall i :: 0 <= i < |stages| ==> StageOk(t, results, uncached[i], stages[i]))
    && (forall i :: 0 <= i < |stages| && stages[i] == Sending(false) ==> Missing(t0, uncached))
    && (forall i :: 0 <= i < |stages| && stages[i] == Finished(false) ==> false in errChan)
    && (false in errChan ==> Missing(t0, uncached))
  }

  /** Every goroutine past its SET left its key in the cache. */
  ghost predicate StoredInv(prefix: string, c: Cache, uncached: seq<Key>, stages: seq<Stage>) {
    |stages| == |uncached| && forall i :: 0 <= i < |stages| && PastSet(stages[i]) ==> CacheKey(prefix, uncached[i]) in c
  }

  predicate PastSet(s: Stage) {
    s.Storing? || ((s.Sending? || s.Finished?) && s.found)
  }

  lemma StoredSteps(prefix: string, c: Cache, c': Cache, uncached: seq<Key>, stages: seq<Stage>, i: nat, next: Stage)
    requires StoredInv(prefix, c, uncached, stages) && c.Keys <= c'.Keys && i < |stages|
    requires PastSet(next) ==> PastSet(stages[i]) || CacheKey(prefix, uncached[i]) in c'
    ensures StoredInv(prefix, c', uncached, stages[i := next])
  {
  }

  lemma InvGrows(t0: Table, t: Table, more: Table, uncached: seq<Key>, cachedOnes: set<Key>,
                 results: map<Key, Value>, stages: seq<Stage>, errChan: seq<bool>)
    requires FetchInv(t0, t, uncached, cachedOnes, results, stages, errChan) && Grown(t, more)
    ensures FetchInv(t0, more, uncached, cachedOnes, results, stages, errChan)
  {
  }

  lemma InvReceives(t0: Table, t: Table, uncached: seq<Key>, cachedOnes: set<Key>,
                    results: map<Key, Value>, stages: seq<Stage>, errChan: seq<bool>)
    requires FetchInv(t0, t, uncached, cachedOnes, results, stages, errChan) && errChan != []
    ensures if errChan[0] then FetchInv(t0, t, uncached, cachedOnes, results, stages, errChan[1..])
            else Missing(t0, uncached)
  {
  }

  lemma InvEnds(t0: Table, t: Table, uncached: seq<Key>, cachedOnes: set<Key>,
                results: map<Key, Value>, stages: seq<Stage>)
    requires FetchInv(t0, t, uncached, cachedOnes, results, stages, [])
    requires forall i :: 0 <= i < |stages| ==> stages[i].Finished?
    ensures results.Keys == cachedOnes + Members(uncached)
  {
  }

  lemma InvSteps(t0: Table, t: Table, uncached: seq<Key>, cachedOnes: set<Key>, results: map<Key, Value>,
                 stages: seq<Stage>, errChan: seq<bool>, i: nat, next: Stage, newResults: map<Key, Value>)
    requires FetchInv(t0, t, uncached, cachedOnes, results, stages, errChan) && Grown(t0, t)
    requires i < |stages| && StageOk(t, newResults, uncached[i], next) && ResultsOk(t, newResults)
    requires results.Keys <= newResults.Keys <= results.Keys + {uncached[i]}
    requires next == Sending(false) ==> Lookup(t, uncached[i]).None?
    requires next.Finished? ==> stages[i] == Sending(next.found)
    requires stages[i].Sending? ==> next == Finished(stages[i].found)
    ensures FetchInv(t0, t, uncached, cachedOnes, newResults, stages[i := next],
                     if stages[i].Sending? then errChan + [stages[i].found] else errChan)
  {
  }

  /** The cache keys that naming k makes invalidate delete: k's own, and its
      partner's when the GET of k's own answered. The partner is spelled out
      of the answer. */
  function Targets(prefix: string, k: Key, got: Option<string>): set<string> {
    if got.Some? && got.value != "" then {CacheKey(prefix, k), PartnerKey(prefix, k, got.value)} else {CacheKey(prefix, k)}
  }

  function PartnerKey(prefix: string, k: Key, got: string): string {
    if k.ByUid? then prefix + ":id:" + got + ":uid" else prefix + ":" + got + ":id"
  }

  function AllTargets(prefix: string, named: seq<Key>, gets: seq<Option<string>>): set<string>
    requires |named| == |gets|
  {
    if named == [] then {}
    else
      var n := |named| - 1;
      AllTargets(prefix, named[..n], gets[..n]) + Targets(prefix, named[n], gets[n])
  }

  /** The other name of the user that k names. */
  function Partner(t: Table, k: Key): Key
    requires Lookup(t, k).Some?
  {
    var r := Find(t, k).value;
    if k.ByUid? then ById(r.id) else ByUid(r.uid)
  }

  lemma PartnerOfPartner(t: Table, k: Key)
    requires TableInv(t) && Lookup(t, k).Some?
    ensures Lookup(t, Partner(t, k)).Some? && Partner(t, Partner(t, k)) == k
  {
  }

  function TargetSets(prefix: string, named: seq<Key>, gets: seq<Option<string>>): (r: seq<set<string>>)
    requires |named| == |gets|
    ensures |r| == |named| && forall i :: 0 <= i < |r| ==> r[i] == Targets(prefix, named[i], gets[i])
  {
    seq(|named|, i requires 0 <= i < |named| => Targets(prefix, named[i], gets[i]))
  }

  ghost predicate InSome(sets: seq<set<string>>, s: string) {
    exists i :: 0 <= i < |sets| && s in sets[i]
  }

  lemma InSomeOfAppend(sets: seq<set<string>>, last: set<string>, s: string)
    ensures InSome(sets + [last], s) <==> InSome(sets, s) || s in last
  {
    var all := sets + [last];
    assert all[|sets|] == last && forall i :: 0 <= i < |sets| ==> all[i] == sets[i];
  }

  lemma {:induction false} InAllTargets(prefix: string, named: seq<Key>, gets: seq<Option<string>>, s: string)
    requires |named| == |gets|
    ensures s in AllTargets(prefix, named, gets) <==> InSome(TargetSets(prefix, named, gets), s)
  {
    if named == [] {
    } else {
      var n := |named| - 1;
      InAllTargets(prefix, named[..n], gets[..n], s);
      InSomeOfAppend(TargetSets(prefix, named[..n], gets[..n]), Targets(prefix, named[n], gets[n]), s);
      assert TargetSets(prefix, named, gets) == TargetSets(prefix, named[..n], gets[..n]) + [Targets(prefix, named[n], gets[n])];
    }
  }

  /** Named, or the other name of a named user whose GET answered. */
  ghost predicate Hit(t: Table, named: seq<Key>, gets: seq<Option<string>>, k: Key)
    requires |named| == |gets| && Lookup(t, k).Some?
  {
    exists i :: 0 <= i < |named| && (named[i] == k || (gets[i].Some? && named[i] == Partner(t, k)))
  }

  lemma TargetsName(prefix: string, t: Table, n: Key, got: Option<string>, k: Key)
    requires TableInv(t) && Faithful(t, n, got) && Lookup(t, k).Some?
    ensures CacheKey(prefix, k) in Targets(prefix, n, got) <==> n == k || (got.Some? && n == Partner(t, k))
  {
    PartnerOfPartner(t, k);
    if CacheKey(prefix, k) == CacheKey(prefix, n) {
      CacheKeyInjective(prefix, k, n);
    }
    if got.Some? {
      assert n.ByUid? ==> Encode(Lookup(t, n).value) != "";
      var other := Partner(t, n);
      PartnerOfPartner(t, n);
      assert PartnerKey(prefix, n, got.value) == CacheKey(prefix, other);
      if CacheKey(prefix, k) == CacheKey(prefix, other) {
        CacheKeyInjective(prefix, k, other);
      }
    }
  }

  lemma AllTargetsName(prefix: string, t: Table, named: seq<Key>, gets: seq<Option<string>>, k: Key)
    requires |named| == |gets| && TableInv(t) && Lookup(t, k).Some?
    requires forall i :: 0 <= i < |named| ==> Faithful(t, named[i], gets[i])
    ensures CacheKey(prefix, k) in AllTargets(prefix, named, gets) <==> Hit(t, named, gets, k)
  {
    InAllTargets(prefix, named, gets, CacheKey(prefix, k));
    var sets := TargetSets(prefix, named, gets);
    forall i | 0 <= i < |sets|
      ensures CacheKey(prefix, k) in sets[i]
         <==> named[i] == k || (gets[i].Some? && named[i] == Partner(t, k))
    {
      TargetsName(prefix, t, named[i], gets[i], k);
    }
  }

  function UidKeys(uids: seq<string>): seq<Key> {
    seq(|uids|, i requires 0 <= i < |uids| => ByUid(uids[i]))
  }

  function IdKeys(ids: seq<Int64>): seq<Key> {
    seq(|ids|, i requires 0 <= i < |ids| => ById(ids[i]))
  }

  function Named(uids: seq<string>, ids: seq<Int64>): seq<Key> {
    UidKeys(uids) + IdKeys(ids)
  }

  lemma UidTargetsNext(prefix: string, uids: seq<string>, gets: seq<Option<string>>, i: nat)
    requires i < |uids| == |gets|
    ensures AllTargets(prefix, UidKeys(uids[..i + 1]), gets[..i + 1])
         == AllTargets(prefix, UidKeys(uids[..i]), gets[..i]) + Targets(prefix, ByUid(uids[i]), gets[i])
  {
    assert UidKeys(uids[..i + 1])[..i] == UidKeys(uids[..i]) && gets[..i + 1][..i] == gets[..i];
  }

  lemma IdTargetsNext(prefix: string, ids: seq<Int64>, gets: seq<Option<string>>, i: nat)
    requires i < |ids| == |gets|
    ensures AllTargets(prefix, IdKeys(ids[..i + 1]), gets[..i + 1])
         == AllTargets(prefix, IdKeys(ids[..i]), gets[..i]) + Targets(prefix, ById(ids[i]), gets[i])
  {
    assert IdKeys(ids[..i + 1])[..i] == IdKeys(ids[..i]) && gets[..i + 1][..i] == gets[..i];
  }

  /** What the cache says for key k. */
  function Get(prefix: string, c: Cache, k: Key): Option<string> {
    if CacheKey(prefix, k) in c then Some(c[CacheKey(prefix, k)]) else None
  }

  function GetEach(prefix: string, seen: seq<Cache>, keys: seq<Key>): seq<Option<string>>
    requires |seen| == |keys|
  {
    seq(|keys|, i requires 0 <= i < |keys| => Get(prefix, seen[i], keys[i]))
  }

  lemma FaithfulGrows(prefix: string, a: Table, b: Table, keys: seq<Key>, gets: seq<Option<string>>, seen: seq<Cache>)
    requires |keys| == |gets| == |seen| && Grown(a, b)
    requires forall i :: 0 <= i < |keys| ==> gets[i] == Get(prefix, seen[i], keys[i]) && CacheInv(prefix, a, seen[i])
    ensures forall i :: 0 <= i < |keys| ==> Faithful(b, keys[i], gets[i])
  {
  }

  lemma HitOfBoth(t: Table, some: seq<Key>, others: seq<Key>, gets: seq<Option<string>>, k: Key)
    requires |gets| == |some| + |others| && Lookup(t, k).Some?
    ensures Hit(t, some + others, gets, k) <==> Hit(t, some, gets[..|some|], k) || Hit(t, others, gets[|some|..], k)
  {
    var n := |some|;
    if Hit(t, some, gets[..n], k) {
      var i :| 0 <= i < n && (some[i] == k || (gets[..n][i].Some? && some[i] == Partner(t, k)));
      assert (some + others)[i] == some[i];
    }
    if Hit(t, others, gets[n..], k) {
      var i :| 0 <= i < |others| && (others[i] == k || (gets[n..][i].Some? && others[i] == Partner(t, k)));
      assert (some + others)[n + i] == others[i] && gets[n + i] == gets[n..][i];
    }
    if Hit(t, some + others, gets, k) {
      var i :| 0 <= i < |gets| && ((some + others)[i] == k || (gets[i].Some? && (some + others)[i] == Partner(t, k)));
      if i < n {
        assert some[i] == (some + others)[i] && gets[..n][i] == gets[i];
      } else {
        assert others[i - n] == (some + others)[i] && gets[n..][i - n] == gets[i];
      }
    }
  }

  lemma BothTargetsName(prefix: string, t: Table, some: seq<Key>, others: seq<Key>, gets: seq<Option<string>>, k: Key)
    requires |gets| == |some| + |others| && TableInv(t) && Lookup(t, k).Some?
    requires forall i :: 0 <= i < |gets| ==> Faithful(t, (some + others)[i], gets[i])
    ensures CacheKey(prefix, k) in AllTargets(prefix, some, gets[..|some|]) + AllTargets(prefix, others, gets[|some|..])
       <==> Hit(t, some + others, gets, k)
  {
    var n := |some|;
    assert forall i :: 0 <= i < n ==> (some + others)[i] == some[i] && gets[..n][i] == gets[i];
    assert forall i :: 0 <= i < |others| ==> (some + others)[n + i] == others[i] && gets[n..][i] == gets[n + i];
    AllTargetsName(prefix, t, some, gets[..n], k);
    AllTargetsName(prefix, t, others, gets[n..], k);
    HitOfBoth(t, some, others, gets, k);
  }

  lemma CacheInvGrows(prefix: string, a: Table, b: Table, c: Cache)
    requires CacheInv(prefix, a, c) && Grown(a, b)
    ensures CacheInv(prefix, b, c)
  {
  }

  class Resolver {
    const prefix: string
    var table: Table
    var cache: Cache

    ghost predicate Valid()
      reads this
    {
      TableInv(table) && CacheInv(prefix, table, cache)
    }

    constructor (prefix: string)
      ensures Valid() && this.prefix == prefix && table == [] && cache == map[]
    {
      this.prefix, table, cache := prefix, [], map[];
    }

    /** Any number of steps of other clients, if there are any. */
    method Others(busy: bool)
      requires Valid()
      modifies this
      ensures Valid() && Grown(old(table), table)
      ensures !busy ==> table == old(table) && cache == old(cache)
    {
      var n: nat := *;
      while busy && n > 0
        invariant Valid() && Grown(old(table), table)
        invariant !busy ==> table == old(table) && cache == old(cache)
      {
        var o: Other := *;
        if Allowed(table, o) {
          OtherKeepsCache(prefix, table, cache, o);
          if o.Create? {
            forall k | Lookup(table, k).Some?
              ensures Lookup(table + [o.row], k) == Lookup(table, k)
            {
              LookupGrows(table, [o.row], k);
            }
          }
          table, cache := TableAfter(table, o), CacheAfter(prefix, table, cache, o);
        }
        n := n - 1;
      }
    }

    /** fetchIDFromDB and fetchUIDFromDB: the last row scanned stays, and id 0
        means that there was none. */
    method Fetch(k: Key) returns (r: Option<Row>)
      requires TableInv(table)
      ensures r == Find(table, k)
    {
      var iden := Row(0, "");
      for i := 0 to |table|
        invariant if Find(table[..i], k).None? then iden.id == 0 else Find(table[..i], k) == Some(iden)
      {
        assert table[..i + 1][..i] == table[..i];
        if Matches(table[i], k) {
          iden := table[i];
        }
      }
      assert table[..|table|] == table;
      r := if iden.id == 0 then None else Some(iden);
    }

    /** The pipeline of GETs, other clients acting between any two;
        `seen` is the cache at each GET. */
    method ReadCache(keys: seq<Key>, busy: bool) returns (cached: seq<Option<string>>, ghost seen: seq<Cache>)
      requires Valid()
      modifies this
      ensures Valid() && Grown(old(table), table)
      ensures |cached| == |keys| == |seen|
      ensures forall i :: 0 <= i < |keys| ==> cached[i] == Get(prefix, seen[i], keys[i]) && CacheInv(prefix, table, seen[i])
      ensures !busy ==> table == old(table) && cache == old(cache) && forall i :: 0 <= i < |seen| ==> seen[i] == cache
    {
      cached, seen := [], [];
      for i := 0 to |keys|
        invariant Valid() && Grown(old(table), table) && |cached| == |seen| == i
        invariant forall j :: 0 <= j < i ==> cached[j] == Get(prefix, seen[j], keys[j]) && CacheInv(prefix, table, seen[j])
        invariant !busy ==> table == old(table) && cache == old(cache) && forall j :: 0 <= j < i ==> seen[j] == cache
      {
        ghost var before := table;
        Others(busy);
        forall j | 0 <= j < i
          ensures CacheInv(prefix, table, seen[j])
        {
          CacheInvGrows(prefix, before, table, seen[j]);
        }
        cached, seen := cached + [Get(prefix, cache, keys[i])], seen + [cache];
      }
    }

    /** The second loop: cached answers converted, the other keys collected. */
    method Classify(keys: seq<Key>, cached: seq<Option<string>>)
      returns (results: map<Key, Value>, uncached: seq<Key>)
      requires |cached| == |keys| && forall i :: 0 <= i < |keys| ==> Faithful(table, keys[i], cached[i])
      ensures ResultsOk(table, results)
      ensures results.Keys + Members(uncached) == Members(keys)
      ensures forall k :: k in results ==> exists i :: 0 <= i < |keys| && keys[i] == k && cached[i].Some?
    {
      results, uncached := map[], [];
      for i := 0 to |keys|
        invariant ResultsOk(table, results)
        invariant results.Keys + Members(uncached) == Members(keys[..i])
        invariant forall k :: k in results ==> exists j :: 0 <= j < i && keys[j] == k && cached[j].Some?
      {
        assert keys[..i + 1] == keys[..i] + [keys[i]];
        MembersAppend(keys[..i], keys[i]);
        if cached[i].Some? {
          ConvertEncode(keys[i], Find(table, keys[i]).value);
          results := results[keys[i] := Convert(keys[i], cached[i].value)];
        } else {
          MembersAppend(uncached, keys[i]);
          uncached := uncached + [keys[i]];
        }
      }
      assert keys[..|keys|] == keys;
    }

    /** The next statement of the goroutine for key k. */
    method Step(k: Key, stage: Stage, results: map<Key, Value>, faulty: bool)
      returns (next: Stage, newResults: map<Key, Value>)
      requires Valid() && !stage.Finished?
      requires StageOk(table, results, k, stage) && ResultsOk(table, results)
      modifies `cache
      ensures Valid()
      ensures StageOk(table, newResults, k, next) && ResultsOk(table, newResults)
      ensures results.Keys <= newResults.Keys <= results.Keys + {k}
      ensures next == Sending(false) ==> Lookup(table, k).None?
      ensures old(cache).Keys <= cache.Keys && (!faulty && next.Storing? ==> CacheKey(prefix, k) in cache)
      ensures next == Sending(true) ==> stage.Storing?
      ensures if stage.Sending? then next == Finished(stage.found) else StageRank(next) < StageRank(stage) && !next.Finished?
    {
      newResults := results;
      match stage {
        case Fetching =>
          var row := Fetch(k);
          next := if row.None? then Sending(false) else Caching(ValueOf(k, row.value));
        case Caching(v) =>
          var stored: bool := *;                         // a failing SET is only logged
          if stored || !faulty {
            OtherKeepsCache(prefix, table, cache, Fill(k));
            cache := cache[CacheKey(prefix, k) := Encode(v)];
          }
          next := Storing(v);
        case Storing(v) =>
          newResults := results[k := v];
          next := Sending(true);
        case Sending(found) =>
          next := Finished(found);
      }
    }

    /** The next statement of goroutine i; t0 is the table when they started. */
    method Advance(ghost t0: Table, uncached: seq<Key>, ghost cachedOnes: set<Key>, results: map<Key, Value>,
                   stages: seq<Stage>, errChan: seq<bool>, i: nat, faulty: bool)
      returns (newResults: map<Key, Value>, newStages: seq<Stage>, newErrChan: seq<bool>)
      requires Valid() && Grown(t0, table) && FetchInv(t0, table, uncached, cachedOnes, results, stages, errChan)
      requires i < |stages| && !stages[i].Finished?
      modifies `cache
      ensures Valid() && FetchInv(t0, table, uncached, cachedOnes, newResults, newStages, newErrChan)
      ensures old(cache).Keys <= cache.Keys
      ensures !faulty && StoredInv(prefix, old(cache), uncached, stages) ==> StoredInv(prefix, cache, uncached, newStages)
      ensures Work(newStages) + |newErrChan| < Work(stages) + |errChan|
    {
      var next;
      next, newResults := Step(uncached[i], stages[i], results, faulty);
      WorkUpdate(stages, i, next);
      if !faulty && StoredInv(prefix, old(cache), uncached, stages) {
        StoredSteps(prefix, old(cache), cache, uncached, stages, i, next);
      }
      InvSteps(t0, table, uncached, cachedOnes, results, stages, errChan, i, next, newResults);
      newStages := stages[i := next];
      newErrChan := if stages[i].Sending? then errChan + [stages[i].found] else errChan;
    }

    /** One goroutine per uncached key, in any order and interleaving, and a
        receive loop that returns at the first error. */
    method FetchAll(uncached: seq<Key>, cachedOnes: map<Key, Value>, busy: bool, faulty: bool)
      returns (r: Result<map<Key, Value>, Error>)
      requires Valid() && ResultsOk(table, cachedOnes)
      modifies this
      ensures Valid() && Grown(old(table), table)
      ensures r.Ok? ==> ResultsOk(table, r.value) && r.value.Keys == cachedOnes.Keys + Members(uncached)
      ensures r.Err? ==> Missing(old(table), uncached)
      ensures !busy ==> table == old(table) && old(cache).Keys <= cache.Keys
      ensures !busy && !faulty && r.Ok? ==> forall i :: 0 <= i < |uncached| ==> CacheKey(prefix, uncached[i]) in cache
    {
      var results := cachedOnes;
      var stages := seq(|uncached|, _ => Fetching);
      var errChan: seq<bool> := [];                      // true stands for a nil error
      while errChan != [] || exists i :: 0 <= i < |stages| && !stages[i].Finished?
        invariant Valid() && Grown(old(table), table)
        invariant FetchInv(old(table), table, uncached, cachedOnes.Keys, results, stages, errChan)
        invariant !busy ==> table == old(table) && old(cache).Keys <= cache.Keys
        invariant !busy && !faulty ==> StoredInv(prefix, cache, uncached, stages)
        decreases Work(stages) + |errChan|
      {
        ghost var before := table;
        Others(busy);
        GrownTrans(old(table), before, table);
        InvGrows(old(table), before, table, uncached, cachedOnes.Keys, results, stages, errChan);
        var receive: bool := *;
        if errChan != [] && (receive || forall i :: 0 <= i < |stages| ==> stages[i].Finished?) {
          InvReceives(old(table), table, uncached, cachedOnes.Keys, results, stages, errChan);
          if !errChan[0] {
            return Err(ErrUserNotFound);
          }
          errChan := errChan[1..];
        } else {
          var i: nat :| i < |stages| && !stages[i].Finished?;
          results, stages, errChan := Advance(old(table), uncached, cachedOnes.Keys, results, stages, errChan, i, faulty);
        }
      }
      InvEnds(old(table), table, uncached, cachedOnes.Keys, results, stages);
      r := Ok(results);
    }

    /** mapperIDs: with busy clients beside it or none, and SETs that may fail
        if faulty. */
    method MapperIDs(keys: seq<Key>, busy: bool, faulty: bool) returns (r: Result<map<Key, Value>, Error>)
      requires Valid()
      modifies this
      ensures Valid() && Grown(old(table), table)
      ensures r.Ok? ==> r.value.Keys == Members(keys) && ResultsOk(table, r.value)
      ensures r.Err? ==> Missing(old(table), keys)
      ensures table == old(table) ==> (r.Err? <==> Missing(table, keys))
      ensures !busy ==> table == old(table)
      ensures !busy && !faulty && r.Ok? ==> forall k :: k in keys ==> CacheKey(prefix, k) in cache
    {
      var cached, seen := ReadCache(keys, busy);
      assert forall i :: 0 <= i < |keys| ==> Faithful(table, keys[i], cached[i]);
      ghost var between := table;
      var results, uncached := Classify(keys, cached);
      if uncached == [] {
        r := Ok(results);
      } else {
        r := FetchAll(uncached, results, busy, faulty);
        GrownTrans(old(table), between, table);
      }
      forall k | !busy && !faulty && r.Ok? && k in keys
        ensures CacheKey(prefix, k) in cache
      {
        assert k in results.Keys + Members(uncached);
      }
      if r.Err? {
        MissingBefore(old(table), between, uncached, keys);
      } else {
        NothingMissing(table, keys, r.value);
      }
    }

    /** The two loops that fill keysToDelete from the answers of the GETs. */
    method UidTarget(uid: string, got: Option<string>) returns (keys: set<string>)
      ensures keys == Targets(prefix, ByUid(uid), got)
    {
      keys := {prefix + ":" + uid + ":id"};
      if got.Some? && got.value != "" {
        keys := keys + {prefix + ":id:" + got.value + ":uid"};
      }
    }

    method UidTargets(uids: seq<string>, gets: seq<Option<string>>) returns (keys: set<string>)
      requires |uids| == |gets|
      ensures keys == AllTargets(prefix, UidKeys(uids), gets)
    {
      keys := {};
      for i := 0 to |uids|
        invariant keys == AllTargets(prefix, UidKeys(uids[..i]), gets[..i])
      {
        var more := UidTarget(uids[i], gets[i]);
        UidTargetsNext(prefix, uids, gets, i);
        keys := keys + more;
      }
      assert uids[..|uids|] == uids && gets[..|uids|] == gets;
    }

    method IdTarget(id: Int64, got: Option<string>) returns (keys: set<string>)
      ensures keys == Targets(prefix, ById(id), got)
    {
      keys := {prefix + ":id:" + FormatInt(id) + ":uid"};
      if got.Some? && got.value != "" {
        keys := keys + {prefix + ":" + got.value + ":id"};
      }
    }

    method IdTargets(ids: seq<Int64>, gets: seq<Option<string>>) returns (keys: set<string>)
      requires |ids| == |gets|
      ensures keys == AllTargets(prefix, IdKeys(ids), gets)
    {
      keys := {};
      for i := 0 to |ids|
        invariant keys == AllTargets(prefix, IdKeys(ids[..i]), gets[..i])
      {
        var more := IdTarget(ids[i], gets[i]);
        IdTargetsNext(prefix, ids, gets, i);
        keys := keys + more;
      }
      assert ids[..|ids|] == ids && gets[..|ids|] == gets;
    }

    /** invalidate, other clients acting between its commands if busy: of the entries
        that its DEL finds, exactly those go that are named or whose partner
        was named and answered its GET, and none is left under a name.
        `seen` is the cache at each GET, `found` the cache at the DEL. */
    method Invalidate(uids: seq<string>, ids: seq<Int64>, busy: bool) returns (ghost seen: seq<Cache>, ghost found: Cache)
      requires Valid()
      modifies this
      ensures Valid() && Grown(old(table), table)
      ensures |seen| == |Named(uids, ids)| && CacheInv(prefix, table, found)
      ensures forall i :: 0 <= i < |seen| ==> CacheInv(prefix, table, seen[i])
      ensures !busy ==> table == old(table) && found == old(cache) && forall i :: 0 <= i < |seen| ==> seen[i] == old(cache)
      ensures forall k :: k in Named(uids, ids) ==> CacheKey(prefix, k) !in cache
      ensures forall s :: s in cache ==> s in found && cache[s] == found[s]
      ensures forall k :: CacheKey(prefix, k) in found ==>
                (CacheKey(prefix, k) in cache <==> !Hit(table, Named(uids, ids), GetEach(prefix, seen, Named(uids, ids)), k))
    {
      if uids == [] && ids == [] {
        return [], cache;
      }
      ghost var named := Named(uids, ids);
      var gets;
      gets, seen := ReadCache(Named(uids, ids), busy);
      ghost var before := table;
      var uidTargets := UidTargets(uids, gets[..|uids|]);
      var idTargets := IdTargets(ids, gets[|uids|..]);
      Others(busy);
      found := cache;
      forall i | 0 <= i < |seen|
        ensures CacheInv(prefix, table, seen[i])
      {
        CacheInvGrows(prefix, before, table, seen[i]);
      }
      assert gets == GetEach(prefix, seen, named);
      FaithfulGrows(prefix, before, table, named, gets, seen);
      forall k | CacheKey(prefix, k) in found
        ensures CacheKey(prefix, k) in uidTargets + idTargets <==> Hit(table, named, gets, k)
      {
        BothTargetsName(prefix, table, UidKeys(uids), IdKeys(ids), gets, k);
      }
      cache := cache - (uidTargets + idTargets);
      forall k | k in named
        ensures CacheKey(prefix, k) !in cache
      {
        assert CacheKey(prefix, k) in found ==> Hit(table, named, gets, k);
      }
    }
  }
}
