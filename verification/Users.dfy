/** The user table: soft delete, with user names and emails unique over all rows, deleted ones
    included; registration, renaming, deletion and login. */
module Users {
  import opened Prelude
  import opened Books

  type UserId = nat

  datatype Permission = ManageBooks | ReadBooks | ManageUsers | ReadUsers

  datatype CreateUser = CreateUser(
    username: Str, email: Str, passwordHash: Option<Str>, isSuperuser: bool, permissions: set<Permission>)

  datatype User = User(
    username: Str, email: Str, passwordHash: Option<Str>, isSuperuser: bool, permissions: set<Permission>)

  datatype UserRow = UserRow(user: User, deletedAt: Option<nat>)

  datatype UserTable = UserTable(rows: map<UserId, UserRow>, next: UserId)

  datatype UpdateUser = UpdateUser(id: UserId, username: Field<Str>, email: Field<Str>)

  /** passlib's context: salted hashing, and a verification that may not know the hash's scheme. */
  datatype Verdict = Match | Mismatch | UnknownHash

  datatype CryptContext = CryptContext(hash: (Str, nat) -> Str, verify: (Str, Str) -> Verdict)

  /** What is assumed of passlib: a hash fits its column and verifies its own password. */
  ghost predicate WellBehaved(c: CryptContext) {
    forall password, salt :: |c.hash(password, salt)| <= WIDTH &&
                             c.verify(password, c.hash(password, salt)) == Match
  }

  ghost predicate ValidUsers(t: UserTable) {
    && (forall id :: id in t.rows ==> id < t.next)
    && (forall a, b :: a in t.rows && b in t.rows && a != b ==>
          t.rows[a].user.username != t.rows[b].user.username && t.rows[a].user.email != t.rows[b].user.email)
  }

  predicate IsActive(t: UserTable, id: UserId) {
    id in t.rows && t.rows[id].deletedAt.None?
  }

  /** The unique constraints look at every row but the one being written. */
  predicate Clashes(t: UserTable, user: User, except: Option<UserId>) {
    exists id :: id in t.rows && Some(id) != except &&
                 (t.rows[id].user.username == user.username || t.rows[id].user.email == user.email)
  }

  function FitOptional(s: Option<Str>): Option<Option<Str>> {
    if s.None? then Some(None)
    else if FitText(s.value).None? then None else Some(FitText(s.value))
  }

  /** The row an INSERT would store, unless some text is too long. */
  function NewUser(u: CreateUser): Option<User> {
    if FitText(u.username).None? || FitText(u.email).None? || FitOptional(u.passwordHash).None? then None
    else Some(User(FitText(u.username).value, FitText(u.email).value, FitOptional(u.passwordHash).value,
                   u.isSuperuser, u.permissions))
  }

  function Insert(t: UserTable, u: CreateUser): Result<UserTable, Error> {
    if NewUser(u).None? then Err(DataError)
    else if Clashes(t, NewUser(u).value, None) then Err(AlreadyExists)
    else Ok(UserTable(t.rows[t.next := UserRow(NewUser(u).value, None)], t.next + 1))
  }

  function Register(t: UserTable, crypt: CryptContext, username: Str, email: Str, password: Str, salt: nat)
    : Result<UserTable, Error>
  {
    Insert(t, CreateUser(username, email, Some(crypt.hash(password, salt)), false, {}))
  }

  function MarkUserDeleted(t: UserTable, id: UserId, now: nat): UserTable {
    if id in t.rows then t.(rows := t.rows[id := t.rows[id].(deletedAt := Some(now))]) else t
  }

  /** The user with the new texts that are not null, unless one is too long. */
  function Renamed(user: User, u: UpdateUser): Option<User> {
    var username := if u.username.Set? then FitText(u.username.value) else Some(user.username);
    var email := if u.email.Set? then FitText(u.email.value) else Some(user.email);
    if username.None? || email.None? then None
    else Some(user.(username := username.value, email := email.value))
  }

  /** The UPDATE statement; a null or a clash is raised as the driver's own integrity error. */
  function SetUser(t: UserTable, u: UpdateUser): Result<UserTable, Error> {
    if u.id !in t.rows then Err(NotFound)
    else if Renamed(t.rows[u.id].user, u).None? then Err(DataError)
    else if u.username.Null? || u.email.Null? then Err(IntegrityError)
    else if Clashes(t, Renamed(t.rows[u.id].user, u).value, Some(u.id)) then Err(IntegrityError)
    else Ok(t.(rows := t.rows[u.id := t.rows[u.id].(user := Renamed(t.rows[u.id].user, u).value)]))
  }

  datatype UserOp =
    | RegisterOp(username: Str, email: Str, password: Str, salt: nat)
    | CreateUserOp(user: CreateUser)
    | UpdateUserOp(update: UpdateUser)
    | DeleteUserOp(id: UserId, now: nat)

  function ApplyUser(crypt: CryptContext, t: UserTable, op: UserOp): Result<UserTable, Error> {
    match op
    case RegisterOp(username, email, password, salt) => Register(t, crypt, username, email, password, salt)
    case CreateUserOp(u) => Insert(t, u)
    case UpdateUserOp(u) => if IsActive(t, u.id) then SetUser(t, u) else Err(NotFound)
    case DeleteUserOp(id, now) => if IsActive(t, id) then Ok(MarkUserDeleted(t, id, now)) else Err(NotFound)
  }

  function ServeUser(crypt: CryptContext, t: UserTable, op: UserOp): UserTable {
    match ApplyUser(crypt, t, op)
    case Ok(u) => u
    case Err(_) => t
  }

  function UserHistory(crypt: CryptContext, t: UserTable, ops: seq<UserOp>): UserTable {
    if ops == [] then t
    else ServeUser(crypt, UserHistory(crypt, t, ops[..|ops| - 1]), ops[|ops| - 1])
  }

  // ---- login ----

  datatype AuthUser = AuthUser(id: UserId, isSuperuser: bool, permissions: set<Permission>)

  predicate ActiveNamed(t: UserTable, id: UserId, username: Str) {
    id in t.rows && t.rows[id].deletedAt.None? && t.rows[id].user.username == username
  }

  /** A live row with this user name, as the lookup finds it. */
  ghost function FindActive(t: UserTable, username: Str): (r: Option<UserId>)
    ensures r.Some? ==> ActiveNamed(t, r.value, username)
    ensures r.None? ==> forall id :: !ActiveNamed(t, id, username)
  {
    if exists id :: ActiveNamed(t, id, username) then
      var id :| ActiveNamed(t, id, username);
      Some(id)
    else None
  }

  ghost function Login(crypt: CryptContext, t: UserTable, username: Str, password: Str): Result<AuthUser, Error> {
    var id := FindActive(t, username);
    if id.None? || t.rows[id.value].user.passwordHash.None? then Err(InvalidCredentials)
    else
      var user := t.rows[id.value].user;
      match crypt.verify(password, user.passwordHash.value)
      case Match => Ok(AuthUser(id.value, user.isSuperuser, user.permissions))
      case Mismatch => Err(InvalidCredentials)
      case UnknownHash => Err(InvalidCredentials)
  }
}
