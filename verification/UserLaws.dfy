/** Accounts over whole histories of registration, creation, renaming and deletion. */
module UserLaws {
  import opened Prelude
  import opened Books
  import opened Users

  /** A later row is the same account: its hash and rights are as registered, and once deleted it
      never changes again. */
  ghost predicate SameAccount(a: UserRow, b: UserRow) {
    && b.user.passwordHash == a.user.passwordHash
    && b.user.isSuperuser == a.user.isSuperuser && b.user.permissions == a.user.permissions
    && (a.deletedAt.Some? ==> b == a)
  }

  ghost predicate KeepsAccounts(s: UserTable, t: UserTable) {
    && s.next <= t.next
    && forall id :: id in s.rows ==> id in t.rows && SameAccount(s.rows[id], t.rows[id])
  }

  lemma InsertKeeps(t: UserTable, u: CreateUser)
    requires ValidUsers(t) && Insert(t, u).Ok?
    ensures ValidUsers(Insert(t, u).value) && KeepsAccounts(t, Insert(t, u).value)
  {
  }

  lemma SetUserKeeps(t: UserTable, u: UpdateUser)
    requires ValidUsers(t) && IsActive(t, u.id) && SetUser(t, u).Ok?
    ensures ValidUsers(SetUser(t, u).value) && KeepsAccounts(t, SetUser(t, u).value)
  {
    var user := Renamed(t.rows[u.id].user, u).value;
    assert forall id :: id in t.rows && id != u.id ==>
      t.rows[id].user.username != user.username && t.rows[id].user.email != user.email;
  }

  lemma ServeUserKeeps(crypt: CryptContext, t: UserTable, op: UserOp)
    requires ValidUsers(t)
    ensures ValidUsers(ServeUser(crypt, t, op)) && KeepsAccounts(t, ServeUser(crypt, t, op))
  {
    if ApplyUser(crypt, t, op).Ok? {
      match op
      case RegisterOp(username, email, password, salt) =>
        InsertKeeps(t, CreateUser(username, email, Some(crypt.hash(password, salt)), false, {}));
      case CreateUserOp(u) => InsertKeeps(t, u);
      case UpdateUserOp(u) => SetUserKeeps(t, u);
      case DeleteUserOp(id, now) =>
    }
  }

  /** Names and emails stay unique over live and deleted rows; no account is lost or revived; hashes
      are fixed when the account is made. */
  lemma {:induction false} UserHistoryKeeps(crypt: CryptContext, t: UserTable, ops: seq<UserOp>)
    requires ValidUsers(t)
    ensures ValidUsers(UserHistory(crypt, t, ops)) && KeepsAccounts(t, UserHistory(crypt, t, ops))
  {
    if ops != [] {
      UserHistoryKeeps(crypt, t, ops[..|ops| - 1]);
      ServeUserKeeps(crypt, UserHistory(crypt, t, ops[..|ops| - 1]), ops[|ops| - 1]);
    }
  }

  /** Login succeeds exactly for the live row with that name, if its hash verifies the password, and gives
      that row's rights. */
  lemma LoginExactly(crypt: CryptContext, t: UserTable, username: Str, password: Str, id: UserId)
    requires ValidUsers(t)
    ensures (Login(crypt, t, username, password).Ok? && Login(crypt, t, username, password).value.id == id) <==>
      && ActiveNamed(t, id, username)
      && t.rows[id].user.passwordHash.Some?
      && crypt.verify(password, t.rows[id].user.passwordHash.value) == Match
    ensures Login(crypt, t, username, password).Ok? ==>
      var found := Login(crypt, t, username, password).value;
      && found.id in t.rows
      && found.isSuperuser == t.rows[found.id].user.isSuperuser
      && found.permissions == t.rows[found.id].user.permissions
    ensures Login(crypt, t, username, password).Err? ==>
      Login(crypt, t, username, password).error == InvalidCredentials
  {
    var found := FindActive(t, username);
    if ActiveNamed(t, id, username) && found.Some? {
      assert found.value == id;
    }
  }

  /** After a registration and any history at all, the account's own password logs in under whatever
      name the live account then has, any other password exactly when it verifies against the hash
      made at registration, and a deleted account never. */
  lemma LoginAfterHistory(crypt: CryptContext, t: UserTable, username: Str, email: Str, password: Str, salt: nat,
                          ops: seq<UserOp>, name: Str, attempt: Str)
    requires WellBehaved(crypt) && ValidUsers(t) && Register(t, crypt, username, email, password, salt).Ok?
    ensures
      var end := UserHistory(crypt, Register(t, crypt, username, email, password, salt).value, ops);
      var login := Login(crypt, end, name, attempt);
      && t.next in end.rows
      && ((login.Ok? && login.value.id == t.next) <==>
            ActiveNamed(end, t.next, name) && crypt.verify(attempt, crypt.hash(password, salt)) == Match)
      && (ActiveNamed(end, t.next, name) ==> Login(crypt, end, name, password).Ok?
                                             && Login(crypt, end, name, password).value == AuthUser(t.next, false, {}))
  {
    var user := CreateUser(username, email, Some(crypt.hash(password, salt)), false, {});
    var start := Insert(t, user).value;
    InsertKeeps(t, user);
    UserHistoryKeeps(crypt, start, ops);
    var end := UserHistory(crypt, start, ops);
    assert |crypt.hash(password, salt)| <= WIDTH;
    assert start.rows[t.next].user.passwordHash == Some(crypt.hash(password, salt));
    assert end.rows[t.next].user.passwordHash == Some(crypt.hash(password, salt));
    LoginExactly(crypt, end, name, attempt, t.next);
    LoginExactly(crypt, end, name, password, t.next);
  }

  predicate Shares(a: User, b: User) {
    a.username == b.username || a.email == b.email
  }

  /** The update sets the name or the email of this user. */
  predicate Claims(u: UpdateUser, user: User) {
    || (u.username.Set? && FitText(u.username.value) == Some(user.username))
    || (u.email.Set? && FitText(u.email.value) == Some(user.email))
  }

  /** The text a column would hold after the update, unless the new one is null or too long. */
  function Resulting(change: Field<Str>, current: Str): Option<Str> {
    match change
    case Unset => Some(current)
    case Null => None
    case Set(text) => FitText(text)
  }

  /** Some other row, live or deleted, has the name or the email the user would get. */
  predicate TakenByAnother(t: UserTable, u: UpdateUser)
    requires u.id in t.rows
  {
    exists id :: id in t.rows && id != u.id &&
      (Resulting(u.username, t.rows[u.id].user.username) == Some(t.rows[id].user.username) ||
       Resulting(u.email, t.rows[u.id].user.email) == Some(t.rows[id].user.email))
  }

  predicate TextsFit(u: UpdateUser) {
    && (u.username.Set? ==> FitText(u.username.value).Some?)
    && (u.email.Set? ==> FitText(u.email.value).Some?)
  }

  predicate SomeNull(u: UpdateUser) {
    u.username.Null? || u.email.Null?
  }

  /** When exactly an update of a user succeeds, and which error it raises otherwise: an explicit null,
      and a clash with any other row, live or deleted, come out as the driver's integrity error, which
      creation translates and the update does not. */
  lemma UserUpdateExactly(crypt: CryptContext, t: UserTable, u: UpdateUser)
    ensures
      var r := ApplyUser(crypt, t, UpdateUserOp(u));
      && (r.Ok? <==> IsActive(t, u.id) && TextsFit(u) && !SomeNull(u) && !TakenByAnother(t, u))
      && (r == Err(IntegrityError) <==> IsActive(t, u.id) && TextsFit(u) && (SomeNull(u) || TakenByAnother(t, u)))
      && (r == Err(DataError) <==> IsActive(t, u.id) && !TextsFit(u))
      && (r == Err(NotFound) <==> !IsActive(t, u.id))
  {
    if IsActive(t, u.id) && TextsFit(u) && !SomeNull(u) {
      var user := Renamed(t.rows[u.id].user, u).value;
      assert Clashes(t, user, Some(u.id)) <==>
        exists id :: id in t.rows && id != u.id && Shares(t.rows[id].user, user);
    }
  }

  /** Renaming a live user to the name of a deleted one raises the integrity error, creating a user
      of that name the translated one. */
  lemma RenameOntoDeletedName(crypt: CryptContext)
    ensures
      var gone := UserRow(User([97], [97], None, false, {}), Some(0));
      var live := UserRow(User([98], [98], None, false, {}), None);
      var t := UserTable(map[0 := gone, 1 := live], 2);
      && ValidUsers(t)
      && ApplyUser(crypt, t, UpdateUserOp(UpdateUser(1, Set([97]), Unset))) == Err(IntegrityError)
      && ApplyUser(crypt, t, CreateUserOp(CreateUser([97], [99], None, false, {}))) == Err(AlreadyExists)
  {
    var gone := UserRow(User([97], [97], None, false, {}), Some(0));
    var live := UserRow(User([98], [98], None, false, {}), None);
    var t := UserTable(map[0 := gone, 1 := live], 2);
    assert 0 in t.rows && t.rows[0].user.username == [97];
    UserUpdateExactly(crypt, t, UpdateUser(1, Set([97]), Unset));
  }

  /** So does setting the name of the only user there is to null. */
  lemma NullNameRaises(crypt: CryptContext)
    ensures
      var t := UserTable(map[0 := UserRow(User([97], [97], None, false, {}), None)], 1);
      && ValidUsers(t) && !TakenByAnother(t, UpdateUser(0, Null, Unset))
      && ApplyUser(crypt, t, UpdateUserOp(UpdateUser(0, Null, Unset))) == Err(IntegrityError)
  {
  }

  /** After any history the row of a deleted account is as it was and no other row has its name or
      its email; neither creating nor renaming any account can take them. */
  lemma DeletedNamesAreBurned(crypt: CryptContext, t: UserTable, gone: UserId, ops: seq<UserOp>)
    requires ValidUsers(t) && gone in t.rows && t.rows[gone].deletedAt.Some?
    ensures
      var end, user := UserHistory(crypt, t, ops), t.rows[gone].user;
      && gone in end.rows && end.rows[gone] == t.rows[gone]
      && (forall id :: id in end.rows && id != gone ==>
            end.rows[id].user.username != user.username && end.rows[id].user.email != user.email)
      && (forall u :: NewUser(u).Some? && Shares(NewUser(u).value, user) ==> Insert(end, u) == Err(AlreadyExists))
      && (forall u :: Claims(u, user) ==> ApplyUser(crypt, end, UpdateUserOp(u)).Err?)
  {
    UserHistoryKeeps(crypt, t, ops);
    var end, user := UserHistory(crypt, t, ops), t.rows[gone].user;
    assert end.rows[gone] == t.rows[gone];
    forall u | Claims(u, user) ensures ApplyUser(crypt, end, UpdateUserOp(u)).Err? {
      UserUpdateExactly(crypt, end, u);
      if IsActive(end, u.id) {
        assert gone != u.id && gone in end.rows;
      }
    }
  }

  /** The update statement misses only a row that is not there, live or deleted, and touches no other. */
  lemma UpdateUserStatement(t: UserTable, u: UpdateUser)
    ensures SetUser(t, u) == Err(NotFound) <==> u.id !in t.rows
    ensures SetUser(t, u).Ok? ==>
      var after := SetUser(t, u).value;
      && after.next == t.next && after.rows.Keys == t.rows.Keys
      && after.rows[u.id].deletedAt == t.rows[u.id].deletedAt
      && forall other :: other in t.rows && other != u.id ==> after.rows[other] == t.rows[other]
  {
  }

  /** The delete statement stamps its row, live or deleted, if there is one, and nothing else. */
  lemma DeleteUserStatement(t: UserTable, id: UserId, now: nat)
    ensures
      var after := MarkUserDeleted(t, id, now);
      && after.next == t.next && after.rows.Keys == t.rows.Keys
      && (forall other :: other in t.rows && other != id ==> after.rows[other] == t.rows[other])
      && (id in t.rows ==> after.rows[id] == UserRow(t.rows[id].user, Some(now)))
  {
  }

  predicate NewTextsFit(u: CreateUser) {
    && FitText(u.username).Some? && FitText(u.email).Some?
    && (u.passwordHash.Some? ==> FitText(u.passwordHash.value).Some?)
  }

  predicate TakenBySomeone(t: UserTable, u: CreateUser) {
    exists id :: id in t.rows &&
      (FitText(u.username) == Some(t.rows[id].user.username) || FitText(u.email) == Some(t.rows[id].user.email))
  }

  /** When exactly creation succeeds, and which error it raises otherwise: no row, live or deleted, may
      have its name or email. */
  lemma InsertExactly(t: UserTable, u: CreateUser)
    ensures Insert(t, u).Ok? <==> NewTextsFit(u) && !TakenBySomeone(t, u)
    ensures Insert(t, u) == Err(AlreadyExists) <==> NewTextsFit(u) && TakenBySomeone(t, u)
    ensures Insert(t, u) == Err(DataError) <==> !NewTextsFit(u)
  {
    if NewUser(u).Some? {
      var user := NewUser(u).value;
      assert Clashes(t, user, None) <==> exists id :: id in t.rows && Shares(t.rows[id].user, user);
    }
  }

  /** The row is the user that was asked for, its texts fitted to their columns. */
  ghost predicate IsUser(row: UserRow, u: CreateUser) {
    && row.deletedAt.None?
    && Some(row.user.username) == FitText(u.username) && Some(row.user.email) == FitText(u.email)
    && row.user.isSuperuser == u.isSuperuser && row.user.permissions == u.permissions
    && (if u.passwordHash.None? then row.user.passwordHash.None?
        else row.user.passwordHash == FitText(u.passwordHash.value))
  }

  /** A created user is one new live row with exactly what was given; every other row is as it was. */
  lemma InsertStores(t: UserTable, u: CreateUser)
    requires ValidUsers(t) && Insert(t, u).Ok?
    ensures
      var after := Insert(t, u).value;
      && t.next !in t.rows && after.rows.Keys == t.rows.Keys + {t.next} && t.next < after.next
      && IsUser(after.rows[t.next], u)
      && (forall id :: id in t.rows ==> after.rows[id] == t.rows[id])
  {
  }

  /** Registration makes a live account with the given name and email, no rights and the hash of the
      password, and it can log in at once under that name and with that password. */
  lemma RegisterStores(crypt: CryptContext, t: UserTable, username: Str, email: Str, password: Str, salt: nat)
    requires WellBehaved(crypt) && ValidUsers(t) && Register(t, crypt, username, email, password, salt).Ok?
    ensures
      var after := Register(t, crypt, username, email, password, salt).value;
      && IsActive(after, t.next)
      && var user := after.rows[t.next].user;
      && Some(user.username) == FitText(username) && Some(user.email) == FitText(email)
      && user.passwordHash == Some(crypt.hash(password, salt)) && !user.isSuperuser && user.permissions == {}
      && Login(crypt, after, user.username, password) == Ok(AuthUser(t.next, false, {}))
      && (|username| <= WIDTH ==> Login(crypt, after, username, password) == Ok(AuthUser(t.next, false, {})))
  {
    var u := CreateUser(username, email, Some(crypt.hash(password, salt)), false, {});
    assert |crypt.hash(password, salt)| <= WIDTH;
    InsertStores(t, u);
    InsertKeeps(t, u);
    var after := Insert(t, u).value;
    LoginExactly(crypt, after, after.rows[t.next].user.username, password, t.next);
  }

  /** When exactly registration succeeds, and which error it raises otherwise. */
  lemma RegisterExactly(crypt: CryptContext, t: UserTable, username: Str, email: Str, password: Str, salt: nat)
    requires WellBehaved(crypt)
    ensures
      var r := Register(t, crypt, username, email, password, salt);
      var fits := FitText(username).Some? && FitText(email).Some?;
      var taken := TakenBySomeone(t, CreateUser(username, email, None, false, {}));
      && (r.Ok? <==> fits && !taken)
      && (r == Err(AlreadyExists) <==> fits && taken)
      && (r == Err(DataError) <==> !fits)
  {
    assert |crypt.hash(password, salt)| <= WIDTH;
    InsertExactly(t, CreateUser(username, email, Some(crypt.hash(password, salt)), false, {}));
  }

  /** The row an operation names, if it names one. */
  function Named(op: UserOp): Option<UserId> {
    match op
    case UpdateUserOp(u) => Some(u.id)
    case DeleteUserOp(id, _) => Some(id)
    case _ => None
  }

  /** A failed operation changes nothing. A successful one leaves every row it does not name as it
      was, makes at most one new row, and of a live row it names changes the set fields or the
      deletion mark and nothing else. */
  lemma ServeUserIsLocal(crypt: CryptContext, t: UserTable, op: UserOp)
    requires ValidUsers(t)
    ensures
      var after := ServeUser(crypt, t, op);
      && (ApplyUser(crypt, t, op).Err? ==> after == t)
      && (forall id :: id in t.rows && Some(id) != Named(op) ==> id in after.rows && after.rows[id] == t.rows[id])
      && (ApplyUser(crypt, t, op).Ok? ==>
            after.rows.Keys == if Named(op).None? then t.rows.Keys + {t.next} else t.rows.Keys)
      && (forall u :: op == UpdateUserOp(u) && ApplyUser(crypt, t, op).Ok? ==>
            && IsActive(t, u.id) && IsActive(after, u.id) && SameAccount(t.rows[u.id], after.rows[u.id])
            && Resulting(u.username, t.rows[u.id].user.username) == Some(after.rows[u.id].user.username)
            && Resulting(u.email, t.rows[u.id].user.email) == Some(after.rows[u.id].user.email))
      && (forall id, now :: op == DeleteUserOp(id, now) ==>
            if IsActive(t, id)
            then ApplyUser(crypt, t, op).Ok? && after.rows[id] == UserRow(t.rows[id].user, Some(now))
            else ApplyUser(crypt, t, op) == Err(NotFound))
  {
  }
}
