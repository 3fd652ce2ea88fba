/** The user table under Create, Update and Delete of
    internal/core/service/user.go and the sign-up of HandleGoogleOAuth. */
module Accounts {
  import opened Wrappers
  import Usernames

  datatype User = User(uid: string, username: string, email: string, password: string, status: string, deleted: bool)

  /** In insertion order; a user's id is its position. */
  type Users = seq<User>

  datatype Error =
    | InvalidUsername | InvalidEmail | InvalidPassword
    | DuplicateUsername | DuplicateEmail
    | UserNotFound | UserDeleteFailed | HashFailed

  datatype Column = Username | Email

  function Field(u: User, c: Column): string {
    if c.Username? then u.username else u.email
  }

  predicate Holds(u: User, c: Column, v: string) {
    !u.deleted && Field(u, c) == v
  }

  ghost predicate Taken(users: Users, c: Column, v: string) {
    exists i :: 0 <= i < |users| && Holds(users[i], c, v)
  }

  ghost predicate TakenByOther(users: Users, c: Column, v: string, me: nat) {
    exists i :: 0 <= i < |users| && i != me && Holds(users[i], c, v)
  }

  /** No two users that are not deleted share an email or a username. */
  ghost predicate Unique(users: Users) {
    forall c, i, j :: 0 <= i < j < |users| && !users[i].deleted && !users[j].deleted ==> Field(users[i], c) != Field(users[j], c)
  }

  /** uidGen never repeats itself. */
  ghost predicate Injective(gen: nat -> string) {
    forall i, j :: gen(i) == gen(j) ==> i == j
  }

  ghost predicate UidsFrom(gen: nat -> string, users: Users) {
    forall i :: 0 <= i < |users| ==> users[i].uid == gen(i)
  }

  /** GetByEmail and GetByUsername: a row that is not deleted. */
  function GetBy(users: Users, c: Column, v: string): (r: Option<nat>)
    ensures r.Some? ==> r.value < |users| && Holds(users[r.value], c, v)
    ensures r.None? ==> !Taken(users, c, v)
  {
    if users == [] then None
    else
      var n := |users| - 1;
      if Holds(users[n], c, v) then Some(n) else GetBy(users[..n], c, v)
  }

  /** The resolver: rows of deleted users still answer. */
  function IdOf(users: Users, uid: string): (r: Option<nat>)
    ensures r.Some? ==> r.value < |users| && users[r.value].uid == uid
    ensures r.None? ==> forall i :: 0 <= i < |users| ==> users[i].uid != uid
  {
    if users == [] then None
    else
      var n := |users| - 1;
      if users[n].uid == uid then Some(n) else IdOf(users[..n], uid)
  }

  datatype Changes = Changes(username: Option<string>, email: Option<string>, password: Option<string>, status: Option<string>)

  function Given<T>(o: Option<T>, otherwise: T): T {
    if o.Some? then o.value else otherwise
  }

  function Changed(u: User, ch: Changes, hash: Option<string>): User {
    u.(username := Given(ch.username, u.username),
       email := Given(ch.email, u.email),
       password := if ch.password.Some? then Given(hash, "") else u.password,
       status := Given(ch.status, u.status))
  }

  /** A given field is stored, every other one kept. */
  predicate Stored(u: User, u': User, ch: Changes, hash: Option<string>) {
    && (ch.username.Some? ==> u'.username == ch.username.value) && (ch.username.None? ==> u'.username == u.username)
    && (ch.email.Some? ==> u'.email == ch.email.value) && (ch.email.None? ==> u'.email == u.email)
    && (ch.password.Some? && hash.Some? ==> u'.password == hash.value) && (ch.password.None? ==> u'.password == u.password)
    && (ch.status.Some? ==> u'.status == ch.status.value) && (ch.status.None? ==> u'.status == u.status)
    && u'.uid == u.uid && u'.deleted == u.deleted
  }

  /** Row i, an undeleted one of this uid, and no other may differ. */
  predicate OneChanged(users: Users, users': Users, uid: string, i: nat)
    requires i < |users| == |users'|
  {
    users[i].uid == uid && !users[i].deleted && users' == users[i := users'[i]]
  }

  lemma ChangedStores(u: User, ch: Changes, hash: Option<string>)
    ensures Stored(u, Changed(u, ch, hash), ch, hash)
  {
  }

  ghost predicate MayTake(users: Users, c: Column, wanted: Option<string>, me: nat) {
    wanted.Some? ==> wanted.value != "" && !TakenByOther(users, c, wanted.value, me)
  }

  ghost predicate MayCreate(users: Users, username: string, email: string, password: string, hash: Option<string>) {
    && username != "" && email != "" && password != "" && hash.Some?
    && !Taken(users, Email, email) && !Taken(users, Username, username)
  }

  ghost predicate MayUpdate(users: Users, me: nat, ch: Changes, hash: Option<string>) {
    && me < |users| && !users[me].deleted
    && MayTake(users, Username, ch.username, me)
    && MayTake(users, Email, ch.email, me)
    && (ch.password.Some? ==> ch.password.value != "" && hash.Some?)
  }

  /** The first check that fails decides the error. */
  ghost function CreateOutcome(users: Users, username: string, email: string, password: string, hash: Option<string>): Result<nat, Error> {
    if username == "" then Err(InvalidUsername)
    else if email == "" then Err(InvalidEmail)
    else if password == "" then Err(InvalidPassword)
    else if Taken(users, Email, email) then Err(DuplicateEmail)
    else if Taken(users, Username, username) then Err(DuplicateUsername)
    else if hash.None? then Err(HashFailed)
    else Ok(|users|)
  }

  ghost function UpdateOutcome(users: Users, me: nat, ch: Changes, hash: Option<string>): Result<(), Error> {
    if ch.username == Some("") then Err(InvalidUsername)
    else if !MayTake(users, Username, ch.username, me) then Err(DuplicateUsername)
    else if ch.email == Some("") then Err(InvalidEmail)
    else if !MayTake(users, Email, ch.email, me) then Err(DuplicateEmail)
    else if ch.password == Some("") then Err(InvalidPassword)
    else if ch.password.Some? && hash.None? then Err(HashFailed)
    else Ok(())
  }

  /** Each error of Create names what is wrong, and the earlier checks passed. */
  lemma CreateErrors(users: Users, username: string, email: string, password: string, hash: Option<string>)
    ensures var r := CreateOutcome(users, username, email, password, hash);
      var given := username != "" && email != "" && password != "";
      && (r == Err(InvalidUsername) <==> username == "")
      && (r == Err(InvalidEmail) <==> username != "" && email == "")
      && (r == Err(InvalidPassword) <==> username != "" && email != "" && password == "")
      && (r == Err(DuplicateEmail) <==> given && Taken(users, Email, email))
      && (r == Err(DuplicateUsername) <==> given && !Taken(users, Email, email) && Taken(users, Username, username))
      && (r == Err(HashFailed) <==> given && !Taken(users, Email, email) && !Taken(users, Username, username) && hash.None?)
      && (r.Ok? <==> MayCreate(users, username, email, password, hash))
  {
  }

  /** So does each error of Update. */
  lemma UpdateErrors(users: Users, me: nat, ch: Changes, hash: Option<string>)
    requires me < |users| && !users[me].deleted
    ensures var r := UpdateOutcome(users, me, ch, hash);
      && (r == Err(InvalidUsername) <==> ch.username == Some(""))
      && (r == Err(DuplicateUsername) ==> ch.username.Some? && TakenByOther(users, Username, ch.username.value, me))
      && (r == Err(InvalidEmail) ==> ch.email == Some("") && MayTake(users, Username, ch.username, me))
      && (r == Err(DuplicateEmail) ==> ch.email.Some? && TakenByOther(users, Email, ch.email.value, me))
      && (r == Err(InvalidPassword) ==> ch.password == Some("") && MayTake(users, Email, ch.email, me))
      && (r == Err(HashFailed) ==> ch.password.Some? && hash.None? && MayTake(users, Email, ch.email, me))
      && (r.Ok? <==> MayUpdate(users, me, ch, hash))
  {
  }

  // Runs of the four operations.

  datatype Op =
    | Create(username: string, email: string, password: string, hash: Option<string>)
    | Update(uid: string, changes: Changes, hash: Option<string>)
    | Delete(uid: string)
    | SignUp(email: string, username: string, hash: Option<string>)

  ghost function Apply(gen: nat -> string, users: Users, op: Op): Users {
    match op
    case Create(username, email, password, hash) =>
      if MayCreate(users, username, email, password, hash)
      then users + [User(gen(|users|), username, email, hash.value, "active", false)] else users
    case Update(uid, ch, hash) =>
      var id := IdOf(users, uid);
      if id.Some? && MayUpdate(users, id.value, ch, hash) then users[id.value := Changed(users[id.value], ch, hash)] else users
    case Delete(uid) =>
      var id := IdOf(users, uid);
      if id.Some? && !users[id.value].deleted then users[id.value := users[id.value].(deleted := true)] else users
    case SignUp(email, username, hash) =>
      if !Taken(users, Email, email) && !Taken(users, Username, username) && hash.Some?
      then users + [User(gen(|users|), username, email, hash.value, "active", false)] else users
  }

  ghost function After(gen: nat -> string, ops: seq<Op>): Users {
    if ops == [] then [] else Apply(gen, After(gen, ops[..|ops| - 1]), ops[|ops| - 1])
  }

  lemma ApplyKeeps(gen: nat -> string, users: Users, op: Op)
    requires Unique(users) && UidsFrom(gen, users)
    ensures Unique(Apply(gen, users, op)) && UidsFrom(gen, Apply(gen, users, op))
  {
  }

  lemma SignUpKeeps(gen: nat -> string, users: Users, email: string, username: string, hash: Option<string>)
    requires Unique(users) && UidsFrom(gen, users) && hash.Some?
    requires !Taken(users, Email, email) && !Taken(users, Username, username)
    ensures var users' := users + [User(gen(|users|), username, email, hash.value, "active", false)];
      users' == Apply(gen, users, SignUp(email, username, hash)) && Unique(users') && UidsFrom(gen, users')
  {
    ApplyKeeps(gen, users, SignUp(email, username, hash));
  }

  /** Over every run, emails and usernames are unique among users that are
      not deleted. */
  lemma {:induction false} AccountsStayUnique(gen: nat -> string, ops: seq<Op>)
    ensures Unique(After(gen, ops)) && UidsFrom(gen, After(gen, ops))
  {
    if ops == [] {
    } else {
      AccountsStayUnique(gen, ops[..|ops| - 1]);
      ApplyKeeps(gen, After(gen, ops[..|ops| - 1]), ops[|ops| - 1]);
    }
  }

  /** Once deleted, a row never changes again: whatever the run does next. */
  lemma {:induction false} DeletedForGood(gen: nat -> string, ops: seq<Op>, k: nat, i: nat)
    requires k <= |ops| && i < |After(gen, ops[..k])| && After(gen, ops[..k])[i].deleted
    ensures i < |After(gen, ops)| && After(gen, ops)[i] == After(gen, ops[..k])[i]
    decreases |ops|
  {
    if k == |ops| {
      assert ops[..k] == ops;
    } else {
      var init := ops[..|ops| - 1];
      assert init[..k] == ops[..k];
      DeletedForGood(gen, init, k, i);
    }
  }

  lemma UidIsPosition(gen: nat -> string, users: Users, i: nat)
    requires Injective(gen) && UidsFrom(gen, users) && i < |users|
    ensures IdOf(users, users[i].uid) == Some(i)
  {
  }

  /** Deleting a user frees its email and username for the next one. */
  lemma DeleteFrees(gen: nat -> string, ops: seq<Op>, i: nat, password: string, hash: Option<string>)
    requires Injective(gen) && i < |After(gen, ops)| && !After(gen, ops)[i].deleted
    requires password != "" && hash.Some?
    ensures var users := After(gen, ops); var u := users[i];
      var after := Apply(gen, Apply(gen, users, Delete(u.uid)), Create(u.username, u.email, password, hash));
      u.username != "" && u.email != "" ==>
        after == users[i := u.(deleted := true)] + [User(gen(|users|), u.username, u.email, hash.value, "active", false)]
  {
    var users := After(gen, ops);
    AccountsStayUnique(gen, ops);
    UidIsPosition(gen, users, i);
    var freed := users[i := users[i].(deleted := true)];
    forall c: Column, j | 0 <= j < |freed|
      ensures !Holds(freed[j], c, Field(users[i], c))
    {
      if j != i && !users[j].deleted {
        assert if j < i then Field(users[j], c) != Field(users[i], c) else Field(users[i], c) != Field(users[j], c);
      }
    }
    assert !Taken(freed, Email, users[i].email) by { assert Field(users[i], Email) == users[i].email; }
    assert !Taken(freed, Username, users[i].username) by { assert Field(users[i], Username) == users[i].username; }
  }

  class Accounts {
    const gen: nat -> string
    var users: Users

    ghost predicate Valid()
      reads this
    {
      Injective(gen) && Unique(users) && UidsFrom(gen, users)
    }

    /** userService.Create; hash is what the password hasher answers. */
    method Create(username: string, email: string, password: string, hash: Option<string>) returns (r: Result<nat, Error>)
      requires Valid()
      modifies this
      ensures Valid() && users == Apply(gen, old(users), Op.Create(username, email, password, hash))
      ensures r.Ok? <==> MayCreate(old(users), username, email, password, hash)
      ensures r == CreateOutcome(old(users), username, email, password, hash)
      ensures r.Ok? ==> users == old(users) + [User(gen(|old(users)|), username, email, hash.value, "active", false)]
    {
      ApplyKeeps(gen, users, Op.Create(username, email, password, hash));
      if username == "" {
        return Err(InvalidUsername);
      }
      if email == "" {
        return Err(InvalidEmail);
      }
      if password == "" {
        return Err(InvalidPassword);
      }
      if GetBy(users, Email, email).Some? {
        return Err(DuplicateEmail);
      }
      if GetBy(users, Username, username).Some? {
        return Err(DuplicateUsername);
      }
      if hash.None? {
        return Err(HashFailed);
      }
      r := Ok(|users|);
      users := users + [User(gen(|users|), username, email, hash.value, "active", false)];
    }

    /** A column that Update may give the value v to. */
    method CheckFree(c: Column, v: string, me: nat) returns (free: bool)
      requires Valid() && me < |users| && !users[me].deleted
      ensures free <==> !TakenByOther(users, c, v, me)
    {
      var existing := GetBy(users, c, v);
      UidIsPosition(gen, users, me);
      free := existing.None? || users[existing.value].uid == users[me].uid;
      if existing.Some? {
        UidIsPosition(gen, users, existing.value);
      }
    }

    /** The fields of the loaded user, replaced one by one. */
    method MergeChanges(me: nat, ch: Changes, hash: Option<string>) returns (r: Result<User, Error>)
      requires Valid() && me < |users| && !users[me].deleted
      ensures r.Ok? <==> MayUpdate(users, me, ch, hash)
      ensures r.Ok? ==> r.value == Changed(users[me], ch, hash) && UpdateOutcome(users, me, ch, hash) == Ok(())
      ensures r.Err? ==> UpdateOutcome(users, me, ch, hash) == Err(r.error) && r.error != UserNotFound
    {
      var user := users[me];
      if ch.username.Some? {
        if ch.username.value == "" {
          return Err(InvalidUsername);
        }
        var free := CheckFree(Username, ch.username.value, me);
        if !free {
          return Err(DuplicateUsername);
        }
        user := user.(username := ch.username.value);
      }
      if ch.email.Some? {
        if ch.email.value == "" {
          return Err(InvalidEmail);
        }
        var free := CheckFree(Email, ch.email.value, me);
        if !free {
          return Err(DuplicateEmail);
        }
        user := user.(email := ch.email.value);
      }
      if ch.password.Some? {
        if ch.password.value == "" {
          return Err(InvalidPassword);
        }
        if hash.None? {
          return Err(HashFailed);
        }
        user := user.(password := hash.value);
      }
      if ch.status.Some? {
        user := user.(status := ch.status.value);
      }
      r := Ok(user);
    }

    /** userService.Update */
    method Update(uid: string, ch: Changes, hash: Option<string>) returns (r: Result<(), Error>)
      requires Valid()
      modifies this
      ensures Valid() && users == Apply(gen, old(users), Op.Update(uid, ch, hash))
      ensures r.Ok? <==> exists i :: 0 <= i < |old(users)| && old(users)[i].uid == uid && MayUpdate(old(users), i, ch, hash)
      ensures r == Err(UserNotFound) <==> forall i :: 0 <= i < |old(users)| && old(users)[i].uid == uid ==> old(users)[i].deleted
      ensures forall i :: 0 <= i < |old(users)| && old(users)[i].uid == uid && !old(users)[i].deleted ==>
                r == UpdateOutcome(old(users), i, ch, hash)
      ensures r.Ok? ==> |users| == |old(users)|
      ensures r.Ok? ==> exists i :: 0 <= i < |users| && OneChanged(old(users), users, uid, i) && Stored(old(users)[i], users[i], ch, hash)
      ensures r.Err? ==> users == old(users)
    {
      ApplyKeeps(gen, users, Op.Update(uid, ch, hash));
      var id := IdOf(users, uid);
      if id.None? {
        return Err(UserNotFound);
      }
      forall i | 0 <= i < |users| && users[i].uid == uid
        ensures i == id.value
      {
        UidIsPosition(gen, users, i);
      }
      if users[id.value].deleted {                       // GetByID reads no deleted row
        return Err(UserNotFound);
      }
      var user := MergeChanges(id.value, ch, hash);
      if user.Err? {
        return Err(user.error);
      }
      users := users[id.value := user.value];
      ChangedStores(old(users)[id.value], ch, hash);
      assert OneChanged(old(users), users, uid, id.value) && Stored(old(users)[id.value], users[id.value], ch, hash);
      r := Ok(());
    }

    /** userService.Delete */
    method Delete(uid: string) returns (r: Result<(), Error>)
      requires Valid()
      modifies this
      ensures Valid() && users == Apply(gen, old(users), Op.Delete(uid))
      ensures r == Err(UserDeleteFailed) <==> forall i :: 0 <= i < |old(users)| ==> old(users)[i].uid != uid
      ensures r == Err(UserNotFound) ==> users == old(users)
      ensures r.Ok? <==> users != old(users)
      ensures r.Ok? ==> |users| == |old(users)|
      ensures r.Ok? ==> exists i :: 0 <= i < |users| && OneChanged(old(users), users, uid, i) && users[i] == old(users)[i].(deleted := true)
    {
      ApplyKeeps(gen, users, Op.Delete(uid));
      var id := IdOf(users, uid);
      if id.None? {
        return Err(UserDeleteFailed);
      }
      if users[id.value].deleted {
        return Err(UserNotFound);
      }
      users := users[id.value := users[id.value].(deleted := true)];
      assert OneChanged(old(users), users, uid, id.value);
      r := Ok(());
    }

    /** HandleGoogleOAuth up to the user: found by email or created under a
        generated name. */
    method FindOrSignUp(email: string, suffixes: nat -> string, hash: Option<string>) returns (r: Result<nat, Error>)
      requires Valid() && Usernames.GoodUids(suffixes)
      modifies this
      ensures Valid()
      ensures r.Ok? ==> r.value < |users| && Holds(users[r.value], Email, email)
      ensures Taken(old(users), Email, email) ==> r.Ok? && users == old(users)
      ensures !Taken(old(users), Email, email) ==> (r.Ok? <==> hash.Some?)
      ensures r.Err? ==> users == old(users)
      ensures users != old(users) ==> hash.Some? && |users| == |old(users)| + 1
      ensures users != old(users) ==> (var u := users[|old(users)|];
        && users == old(users) + [User(gen(|old(users)|), u.username, email, hash.value, "active", false)]
        && Usernames.ValidUsername(u.username) && users == Apply(gen, old(users), SignUp(email, u.username, hash)))
    {
      var holder := GetBy(users, Email, email);
      if holder.Some? {
        return Ok(holder.value);
      }
      if hash.None? {
        return Err(HashFailed);
      }
      var taken := set i | 0 <= i < |users| && !users[i].deleted :: users[i].username;
      var name, _ := Usernames.GenerateUsername(email, taken, suffixes, _ => false);
      assert !Taken(users, Username, name);
      SignUpKeeps(gen, users, email, name, hash);
      r := Ok(|users|);
      users := users + [User(gen(|users|), name, email, hash.value, "active", false)];
    }
  }
}
