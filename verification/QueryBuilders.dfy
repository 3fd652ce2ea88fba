/** internal/adapter/repository/user_file.go, user.go and device.go: List and
    ListByUserID up to the statement that they send. */
module QueryBuilders {
  import opened Wrappers
  import Like
  import opened Query

  /** A row of the user table, deleted or not, as the subquery sees it. */
  datatype User = User(id: int, uid: string)

  function UserRow(u: User): Row {
    map["id" := Number(u.id), "uid" := Text(u.uid)]
  }

  datatype UserFileFilter = UserFileFilter(uids: seq<string>, userUids: seq<string>,
                                           fileType: Option<string>, visibility: Option<string>)

  const USER_FILE_ORDER := {"id", "uid", "user_id", "file_type", "file_name", "created_at"}
  const USER_ORDER := {"id", "uid", "username", "email", "status", "created_at", "updated_at"}
  const DEVICE_ORDER := {"id", "uid", "device_fingerprint", "device_name", "created_at"}

  // What the filters mean, field by field.

  predicate OwnerIn(users: seq<User>, row: Row, wanted: seq<string>) {
    wanted != [] ==> exists u :: u in users && u.uid in wanted && "user_id" in row && row["user_id"] == Number(u.id)
  }

  predicate UserFileMatches(users: seq<User>, f: UserFileFilter, row: Row) {
    && TextIn(row, "uid", f.uids)
    && OwnerIn(users, row, f.userUids)
    && TextIs(row, "file_type", f.fileType)
    && TextIs(row, "visibility", f.visibility)
  }

  predicate NoSuchUser(users: seq<User>, wanted: seq<string>) {
    wanted != [] && forall u :: u in users ==> u.uid !in wanted
  }

  /** The subquery: the ids of the users with the wanted uids. */
  method UserIds(users: seq<User>, wanted: seq<string>) returns (ids: seq<int>)
    ensures forall id :: id in ids <==> exists u :: u in users && u.uid in wanted && u.id == id
    ensures wanted != [] && ids == [] ==> NoSuchUser(users, wanted)
  {
    var places, userQueryArgs, _ := Placeholders(AsTexts(wanted), [], 1);
    ids := [];
    for i := 0 to |users|
      invariant forall id :: id in ids <==> exists u :: u in users[..i] && u.uid in wanted && u.id == id
    {
      var row := UserRow(users[i]);
      InMeans("uid", places, [], AsTexts(wanted), row);
      TextsMember(wanted, row["uid"]);
      assert userQueryArgs == [] + AsTexts(wanted);
      assert users[..i + 1] == users[..i] + [users[i]];
      if Holds(In("uid", places), userQueryArgs, row) {
        ids := ids + [users[i].id];
      }
    }
    assert users[..|users|] == users;
    assert forall u :: u in users && u.uid in wanted ==> u.id in ids;
  }

  lemma TextsIn(column: string, wanted: seq<string>)
    requires wanted != []
    ensures forall row :: ValueIn(row, column, AsTexts(wanted)) <==> TextIn(row, column, wanted)
  {
  }

  lemma OwnersIn(users: seq<User>, wanted: seq<string>, ids: seq<int>)
    requires wanted != [] && ids != []
    requires forall id :: id in ids <==> exists u :: u in users && u.uid in wanted && u.id == id
    ensures !NoSuchUser(users, wanted)
    ensures forall row :: ValueIn(row, "user_id", AsNumbers(ids)) <==> OwnerIn(users, row, wanted)
  {
    assert ids[0] in ids;
    forall row: Row | "user_id" in row
      ensures row["user_id"] in AsNumbers(ids) <==> OwnerIn(users, row, wanted)
    {
      NumbersMember(ids, row["user_id"]);
    }
  }

  /** UserFileRepository.List */
  method UserFileList(users: seq<User>, p: Option<Pagination>, f: Option<UserFileFilter>) returns (r: Result<Statement, Error>)
    ensures f.Some? && NoSuchUser(users, f.value.userUids) <==> r == Err(ErrUserNotFound)
    ensures r.Err? && r.error.InvalidOrderBy? ==> ValidateOrderBy(p, "created_at", USER_FILE_ORDER) == Err(r.error)
    ensures r.Ok? ==> WellPlaced(r.value, p) && ValidateOrderBy(p, "created_at", USER_FILE_ORDER) == Ok(r.value.orderBy)
    ensures r.Ok? ==> forall row :: Selects(r.value, row) <==> (f.Some? ==> UserFileMatches(users, f.value, row))
  {
    var b := Builder([], [], 1);
    if f.Some? {
      var f := f.value;
      if f.uids != [] {
        b := AddIn(b, "uid", AsTexts(f.uids));
        TextsIn("uid", f.uids);
      }
      if f.userUids != [] {
        var ids := UserIds(users, f.userUids);
        if ids == [] {
          return Err(ErrUserNotFound);
        }
        b := AddIn(b, "user_id", AsNumbers(ids));
        OwnersIn(users, f.userUids, ids);
      }
      if f.fileType.Some? {
        b := AddEquals(b, "file_type", Text(f.fileType.value));
      }
      if f.visibility.Some? {
        b := AddEquals(b, "visibility", Text(f.visibility.value));
      }
    }
    var orderBy := ValidateOrderBy(p, "created_at", USER_FILE_ORDER);
    if orderBy.Err? {
      return Err(orderBy.error);
    }
    var q := Paginate(b, orderBy.value, p);
    r := Ok(q);
  }

  datatype UserFilter = UserFilter(uids: seq<string>, username: Option<string>, email: Option<string>, query: Option<string>)

  predicate UserMatches(f: UserFilter, row: Row) {
    && TextIn(row, "uid", f.uids)
    && TextIs(row, "username", f.username)
    && TextIs(row, "email", f.email)
    && (f.query.Some? ==>
          var pattern := Text("%" + f.query.value + "%");
          ILike(row, "username", pattern) || ILike(row, "email", pattern))
  }

  /** A search text without special characters finds the users whose username
      or email contains it, in any case. */
  lemma SearchFinds(q: string, row: Row, column: string)
    requires Like.Plain(q)
    ensures ILike(row, column, Text("%" + q + "%")) <==>
              column in row && row[column].Text? && Like.Contains(Like.Fold(row[column].text), Like.Fold(q))
  {
    Like.SearchIsContainsIff(q);
  }

  /** UserRepository.List */
  method UserList(p: Option<Pagination>, f: Option<UserFilter>) returns (r: Result<Statement, Error>)
    ensures r.Err? ==> ValidateOrderBy(p, "created_at", USER_ORDER) == Err(r.error)
    ensures r.Ok? ==> WellPlaced(r.value, p) && ValidateOrderBy(p, "created_at", USER_ORDER) == Ok(r.value.orderBy)
    ensures r.Ok? ==> forall row :: Selects(r.value, row) <==> "deleted_at" !in row && (f.Some? ==> UserMatches(f.value, row))
  {
    var b := Builder([], [], 1);
    if f.Some? && f.value.uids != [] {
      b := AddAnyOf(b, "uid", f.value.uids);
    }
    if f.Some? && f.value.username.Some? {
      b := AddEquals(b, "username", Text(f.value.username.value));
    }
    if f.Some? && f.value.email.Some? {
      b := AddEquals(b, "email", Text(f.value.email.value));
    }
    if f.Some? && f.value.query.Some? {
      b := AddSearch(b, "username", "email", "%" + f.value.query.value + "%");
    }
    b := AddIsNull(b, "deleted_at");
    var orderBy := ValidateOrderBy(p, "created_at", USER_ORDER);
    if orderBy.Err? {
      return Err(orderBy.error);
    }
    var q := Paginate(b, orderBy.value, p);
    r := Ok(q);
  }

  datatype DeviceFilter = DeviceFilter(uids: seq<string>, deviceName: Option<string>)

  predicate DeviceMatches(f: DeviceFilter, table: string, row: Row) {
    TextIn(row, table + "uid", f.uids) && TextIs(row, table + "device_name", f.deviceName)
  }

  /** DeviceRepository.List */
  method DeviceList(p: Option<Pagination>, f: Option<DeviceFilter>) returns (r: Result<Statement, Error>)
    ensures r.Err? ==> ValidateOrderBy(p, "created_at", DEVICE_ORDER) == Err(r.error)
    ensures r.Ok? ==> WellPlaced(r.value, p) && ValidateOrderBy(p, "created_at", DEVICE_ORDER) == Ok(r.value.orderBy)
    ensures r.Ok? ==> forall row :: Selects(r.value, row) <==> (f.Some? ==> DeviceMatches(f.value, "", row))
  {
    var b := Builder([], [], 1);
    assert "" + "uid" == "uid" && "" + "device_name" == "device_name";
    if f.Some? {
      if f.value.uids != [] {
        b := AddAnyOf(b, "uid", f.value.uids);
      }
      if f.value.deviceName.Some? {
        b := AddEquals(b, "device_name", Text(f.value.deviceName.value));
      }
    }
    var orderBy := ValidateOrderBy(p, "created_at", DEVICE_ORDER);
    if orderBy.Err? {
      return Err(orderBy.error);
    }
    var q := Paginate(b, orderBy.value, p);
    r := Ok(q);
  }

  /** DeviceRepository.ListByUserID, over the rows of the join. */
  method DeviceListByUserID(userID: int, p: Option<Pagination>, f: Option<DeviceFilter>) returns (r: Result<Statement, Error>)
    ensures r.Err? ==> ValidateOrderBy(p, "created_at", DEVICE_ORDER) == Err(r.error)
    ensures r.Ok? ==> WellPlaced(r.value, p)
    ensures r.Ok? ==> exists o :: ValidateOrderBy(p, "created_at", DEVICE_ORDER) == Ok(o) && r.value.orderBy == "d." + o
    ensures r.Ok? ==> forall row :: Selects(r.value, row) <==>
              && "ud.user_id" in row && row["ud.user_id"] == Number(userID)
              && "ud.revoked_at" !in row
              && (f.Some? ==> DeviceMatches(f.value, "d.", row))
  {
    var b := Builder([], [], 1);
    assert "d." + "uid" == "d.uid" && "d." + "device_name" == "d.device_name";
    b := AddEquals(b, "ud.user_id", Number(userID));
    b := AddIsNull(b, "ud.revoked_at");
    if f.Some? {
      if f.value.uids != [] {
        b := AddAnyOf(b, "d.uid", f.value.uids);
      }
      if f.value.deviceName.Some? {
        b := AddEquals(b, "d.device_name", Text(f.value.deviceName.value));
      }
    }
    var orderBy := ValidateOrderBy(p, "created_at", DEVICE_ORDER);
    if orderBy.Err? {
      return Err(orderBy.error);
    }
    var q := Paginate(b, "d." + orderBy.value, p);
    r := Ok(q);
  }
}
