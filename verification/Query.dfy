/** internal/adapter/repository: the query builders of UserFile.List,
    User.List, Device.List and Device.ListByUserID. A statement is kept as
    its conditions rather than as SQL text. */
module Query {
  import opened Wrappers
  import Like

  datatype Value = Text(text: string) | Number(number: int) | Texts(texts: seq<string>)

  /** Columns that are NULL have no entry. */
  type Row = map<string, Value>

  /** A condition names its arguments by placeholder, $1 being the first. */
  datatype Cond =
    | Equals(column: string, place: nat)
    | In(column: string, places: seq<nat>)
    | AnyOf(column: string, place: nat)
    | ILikeEither(column: string, other: string, place: nat)
    | IsNull(column: string)

  predicate Bound(c: Cond, n: nat) {
    match c
    case In(_, places) => forall i :: 0 <= i < |places| ==> 1 <= places[i] <= n
    case IsNull(_) => true
    case _ => 1 <= c.place <= n
  }

  predicate ILike(row: Row, column: string, pattern: Value) {
    column in row && row[column].Text? && pattern.Text? && Like.MatchesFolded(pattern.text, row[column].text)
  }

  /** Whether a condition selects a row; comparing with NULL does not. */
  predicate Holds(c: Cond, args: seq<Value>, row: Row)
    requires Bound(c, |args|)
  {
    match c
    case Equals(column, p) => column in row && row[column] == args[p - 1]
    case In(column, places) => column in row && exists i :: 0 <= i < |places| && row[column] == args[places[i] - 1]
    case AnyOf(column, p) => column in row && args[p - 1].Texts? && row[column].Text? && row[column].text in args[p - 1].texts
    case ILikeEither(column, other, p) => ILike(row, column, args[p - 1]) || ILike(row, other, args[p - 1])
    case IsNull(column) => column !in row
  }

  predicate AllBound(conditions: seq<Cond>, n: nat) {
    forall i :: 0 <= i < |conditions| ==> Bound(conditions[i], n)
  }

  predicate AllHold(conditions: seq<Cond>, args: seq<Value>, row: Row)
    requires AllBound(conditions, |args|)
  {
    forall i :: 0 <= i < |conditions| ==> Holds(conditions[i], args, row)
  }

  lemma AllHoldExtends(conditions: seq<Cond>, args: seq<Value>, more: seq<Value>, row: Row)
    requires AllBound(conditions, |args|)
    ensures AllBound(conditions, |args + more|)
    ensures AllHold(conditions, args + more, row) <==> AllHold(conditions, args, row)
  {
  }

  /** Arguments and a condition over them, appended. */
  lemma Appended(conditions: seq<Cond>, args: seq<Value>, c: Cond, more: seq<Value>, row: Row)
    requires AllBound(conditions, |args|) && Bound(c, |args + more|)
    ensures AllBound(conditions + [c], |args + more|)
    ensures AllHold(conditions + [c], args + more, row) <==> AllHold(conditions, args, row) && Holds(c, args + more, row)
  {
    AllHoldExtends(conditions, args, more, row);
    var all := conditions + [c];
    assert all[|conditions|] == c && forall i :: 0 <= i < |conditions| ==> all[i] == conditions[i];
  }

  // Pagination and ordering, as every List reads them.

  datatype Pagination = Pagination(page: Option<int>, limit: Option<int>, orderBy: Option<string>)

  datatype Error = ErrUserNotFound | InvalidOrderBy(value: string)

  function Limit(p: Option<Pagination>): int {
    if p.Some? && p.value.limit.Some? then p.value.limit.value else 10
  }

  function Offset(p: Option<Pagination>): int {
    if p.Some? && p.value.page.Some? then (p.value.page.value - 1) * Limit(p) else 0
  }

  /** Without a limit there are 10 rows to a page; without a page it is the
      first; and page n starts where page n - 1 ends. */
  lemma PaginationDefaults(page: Option<int>, limit: Option<int>, orderBy: Option<string>)
    ensures var p := Pagination(page, limit, orderBy);
      && Limit(None) == 10 && Offset(None) == 0
      && (limit.None? ==> Limit(Some(p)) == 10) && (limit.Some? ==> Limit(Some(p)) == limit.value)
      && (page.None? ==> Offset(Some(p)) == 0) && (page == Some(1) ==> Offset(Some(p)) == 0)
      && (page.Some? ==> Offset(Some(p.(page := Some(page.value + 1)))) == Offset(Some(p)) + Limit(Some(p)))
  {
  }

  function ValidateOrderBy(p: Option<Pagination>, default: string, allowed: set<string>): (r: Result<string, Error>)
    ensures p.Some? && p.value.orderBy.Some? && p.value.orderBy.value in allowed - {""} ==> r == Ok(p.value.orderBy.value)
    ensures p.None? || p.value.orderBy.None? || p.value.orderBy.value == "" ==> r == Ok(default)
    ensures r.Err? <==> p.Some? && p.value.orderBy.Some? && p.value.orderBy.value !in allowed + {""}
    ensures r.Err? ==> r.error == InvalidOrderBy(p.value.orderBy.value)
  {
    if p.Some? && p.value.orderBy.Some? then
      var o := p.value.orderBy.value;
      if o == "" then Ok(default) else if o in allowed then Ok(o) else Err(InvalidOrderBy(o))
    else Ok(default)
  }

  /** A SELECT ... WHERE conditions ORDER BY orderBy LIMIT $limit OFFSET $offset. */
  datatype Statement = Statement(conditions: seq<Cond>, args: seq<Value>, orderBy: string,
                                 limitPlace: nat, offsetPlace: nat)

  /** The conditions use only the arguments before the last two, and those are
      the limit and the offset. */
  ghost predicate WellPlaced(q: Statement, p: Option<Pagination>) {
    && |q.args| >= 2
    && AllBound(q.conditions, |q.args| - 2)
    && q.limitPlace == |q.args| - 1 && q.args[q.limitPlace - 1] == Number(Limit(p))
    && q.offsetPlace == |q.args| && q.args[q.offsetPlace - 1] == Number(Offset(p))
  }

  /** The count query and the page query select by the same meaning. */
  ghost predicate Selects(q: Statement, row: Row)
    requires |q.args| >= 2 && AllBound(q.conditions, |q.args| - 2)
  {
    && AllHold(q.conditions, q.args[..|q.args| - 2], row)
    && AllBound(q.conditions, |q.args|) && AllHold(q.conditions, q.args, row)
  }

  // The IN lists.

  function AsTexts(ss: seq<string>): (r: seq<Value>)
    ensures |r| == |ss| && forall i :: 0 <= i < |ss| ==> r[i] == Text(ss[i])
  {
    seq(|ss|, i requires 0 <= i < |ss| => Text(ss[i]))
  }

  function AsNumbers(ns: seq<int>): (r: seq<Value>)
    ensures |r| == |ns| && forall i :: 0 <= i < |ns| ==> r[i] == Number(ns[i])
  {
    seq(|ns|, i requires 0 <= i < |ns| => Number(ns[i]))
  }

  /** The loop that writes one placeholder and one argument for each value. */
  method Placeholders(values: seq<Value>, args: seq<Value>, argIdx: nat)
    returns (places: seq<nat>, newArgs: seq<Value>, newIdx: nat)
    requires argIdx == |args| + 1
    ensures newArgs == args + values && newIdx == |newArgs| + 1
    ensures |places| == |values| && forall i :: 0 <= i < |places| ==> places[i] == argIdx + i
  {
    places, newArgs, newIdx := [], args, argIdx;
    for i := 0 to |values|
      invariant newArgs == args + values[..i] && newIdx == argIdx + i
      invariant |places| == i && forall j :: 0 <= j < i ==> places[j] == argIdx + j
    {
      places := places + [newIdx];
      newArgs := newArgs + [values[i]];
      newIdx := newIdx + 1;
    }
  }

  lemma InMeans(column: string, places: seq<nat>, args: seq<Value>, values: seq<Value>, row: Row)
    requires |places| == |values| && forall i :: 0 <= i < |places| ==> places[i] == |args| + 1 + i
    ensures Bound(In(column, places), |args + values|)
    ensures Holds(In(column, places), args + values, row) <==> column in row && row[column] in values
  {
    forall i | 0 <= i < |values|
      ensures (args + values)[places[i] - 1] == values[i]
    {
    }
    if column in row && row[column] in values {
      var i :| 0 <= i < |values| && values[i] == row[column];
      assert row[column] == (args + values)[places[i] - 1];
    }
  }

  lemma TextsMember(ss: seq<string>, v: Value)
    ensures v in AsTexts(ss) <==> v.Text? && v.text in ss
  {
  }

  lemma NumbersMember(ns: seq<int>, v: Value)
    ensures v in AsNumbers(ns) <==> v.Number? && v.number in ns
  {
  }

  // What one filter field asks of a row; a field that is not given asks
  // nothing.

  predicate ValueIn(row: Row, column: string, wanted: seq<Value>) {
    column in row && row[column] in wanted
  }

  predicate TextIs(row: Row, column: string, wanted: Option<string>) {
    wanted.Some? ==> column in row && row[column] == Text(wanted.value)
  }

  predicate TextIn(row: Row, column: string, wanted: seq<string>) {
    wanted != [] ==> column in row && row[column].Text? && row[column].text in wanted
  }

  /** The three variables that every builder threads through its branches. */
  datatype Builder = Builder(conditions: seq<Cond>, args: seq<Value>, argIdx: nat) {
    ghost predicate Ready() {
      argIdx == |args| + 1 && AllBound(conditions, |args|)
    }

    ghost predicate Chooses(row: Row)
      requires Ready()
    {
      AllHold(conditions, args, row)
    }

    /** One condition over arguments that are appended with it. */
    ghost predicate Extends(b: Builder, c: Cond, more: seq<Value>) {
      conditions == b.conditions + [c] && args == b.args + more && argIdx == b.argIdx + |more|
    }
  }

  lemma ExtendsChooses(b: Builder, b': Builder, c: Cond, more: seq<Value>)
    requires b.Ready() && b'.Extends(b, c, more) && Bound(c, |b'.args|)
    ensures b'.Ready()
    ensures forall row :: b'.Chooses(row) <==> b.Chooses(row) && Holds(c, b'.args, row)
  {
    forall row
      ensures AllBound(b'.conditions, |b'.args|) && (b'.Chooses(row) <==> b.Chooses(row) && Holds(c, b'.args, row))
    {
      Appended(b.conditions, b.args, c, more, row);
    }
  }

  /** column IN ($i, $i+1, ...) */
  method AddIn(b: Builder, column: string, wanted: seq<Value>) returns (r: Builder)
    requires b.Ready()
    ensures r.Ready() && forall row :: r.Chooses(row) <==> b.Chooses(row) && ValueIn(row, column, wanted)
  {
    var places, args, argIdx := Placeholders(wanted, b.args, b.argIdx);
    var c := In(column, places);
    r := Builder(b.conditions + [c], args, argIdx);
    forall row
      ensures Bound(c, |args|) && (Holds(c, args, row) <==> ValueIn(row, column, wanted))
    {
      InMeans(column, places, b.args, wanted, row);
    }
    ExtendsChooses(b, r, c, wanted);
  }

  /** column = $i */
  method AddEquals(b: Builder, column: string, wanted: Value) returns (r: Builder)
    requires b.Ready()
    ensures r.Ready() && forall row :: r.Chooses(row) <==> b.Chooses(row) && column in row && row[column] == wanted
  {
    var c := Equals(column, b.argIdx);
    r := Builder(b.conditions + [c], b.args + [wanted], b.argIdx + 1);
    ExtendsChooses(b, r, c, [wanted]);
  }

  /** column = ANY($i) */
  method AddAnyOf(b: Builder, column: string, wanted: seq<string>) returns (r: Builder)
    requires b.Ready() && wanted != []
    ensures r.Ready() && forall row :: r.Chooses(row) <==> b.Chooses(row) && TextIn(row, column, wanted)
  {
    var c := AnyOf(column, b.argIdx);
    r := Builder(b.conditions + [c], b.args + [Texts(wanted)], b.argIdx + 1);
    ExtendsChooses(b, r, c, [Texts(wanted)]);
  }

  /** column IS NULL */
  method AddIsNull(b: Builder, column: string) returns (r: Builder)
    requires b.Ready()
    ensures r.Ready() && forall row :: r.Chooses(row) <==> b.Chooses(row) && column !in row
  {
    var c := IsNull(column);
    r := Builder(b.conditions + [c], b.args, b.argIdx);
    ExtendsChooses(b, r, c, []);
  }

  /** (column ILIKE $i OR other ILIKE $i) */
  method AddSearch(b: Builder, column: string, other: string, pattern: string) returns (r: Builder)
    requires b.Ready()
    ensures r.Ready()
    ensures forall row :: r.Chooses(row) <==>
              b.Chooses(row) && (ILike(row, column, Text(pattern)) || ILike(row, other, Text(pattern)))
  {
    var c := ILikeEither(column, other, b.argIdx);
    r := Builder(b.conditions + [c], b.args + [Text(pattern)], b.argIdx + 1);
    ExtendsChooses(b, r, c, [Text(pattern)]);
  }

  /** LIMIT $i OFFSET $i+1 */
  method Paginate(b: Builder, orderBy: string, p: Option<Pagination>) returns (q: Statement)
    requires b.Ready()
    ensures WellPlaced(q, p) && q.orderBy == orderBy
    ensures forall row :: Selects(q, row) <==> b.Chooses(row)
  {
    var last := [Number(Limit(p)), Number(Offset(p))];
    q := Statement(b.conditions, b.args + last, orderBy, b.argIdx, b.argIdx + 1);
    assert q.args[..|b.args|] == b.args;
    forall row
      ensures AllBound(q.conditions, |q.args|) && (AllHold(q.conditions, q.args, row) <==> b.Chooses(row))
    {
      AllHoldExtends(b.conditions, b.args, last, row);
    }
  }
}
