/** The use cases: each is one scope of the unit of work around the service or storage calls. */
module Commands {
  import opened Prelude
  import opened Slices
  import opened Books
  import opened Users
  import opened Search
  import opened UnitOfWork
  import opened Upload
  import opened StorageObjects

  /** A body of one statement. */
  lemma SingleStatement(u: Uow, s: Statement, crash: Option<nat>)
    ensures RunBody(u, [s], crash) ==
      if crash == Some(0) then (u, Some(Interrupted))
      else if Run(u, s).1.None? && crash == Some(1) then (Run(u, s).0, Some(Interrupted))
      else Run(u, s)
  {
    assert [s][1..] == [];
  }

  class UploadBooksCommand {
    const uow: SqlalchemyUow
    const service: BookService

    constructor (uow: SqlalchemyUow, service: BookService)
      ensures this.uow == uow && this.service == service
    {
      this.uow, this.service := uow, service;
    }

    /** Collect first; a failing search raises before any transaction. Then all buckets in one scope. */
    method Execute(ghost catalogue: Catalogue, queries: seq<Query>, faults: Faults) returns (error: Option<Error>)
      requires service.storage.uow == uow && ServesAll(catalogue, queries)
      modifies uow, uow.db
      ensures (uow.Snapshot(), error) == Handle(old(uow.Snapshot()), catalogue, Message(queries, faults))
    {
      var books := Collect(catalogue, queries);
      if books.Err? {
        return Some(books.error);
      }
      var bookBuckets := Buckets(books.value, BUCKET_SIZE);
      error := uow.CreateTransaction(faults.begin);
      if error.None? {
        var raised := SaveBuckets(bookBuckets, faults.crash);
        error := uow.Exit(raised, faults);
      }
    }

    method Collect(ghost catalogue: Catalogue, queries: seq<Query>) returns (r: Result<seq<CreateBook>, Error>)
      requires ServesAll(catalogue, queries)
      ensures r == CollectAll(catalogue, queries)
    {
      var books: seq<CreateBook> := [];
      for i := 0 to |queries|
        invariant CollectAll(catalogue, queries[..i]) == Ok(books)
      {
        ghost var docs := DocsOf(catalogue, queries[i].text);
        var found, k, searches := GetAllBooksByQuery(queries[i].search, docs);
        StopUnique(docs, k, StopFrom(docs, 0));
        assert queries[..i + 1][..i] == queries[..i];
        if found.Err? {
          FailedCollect(catalogue, queries, i);
          return Err(found.error);
        }
        books := books + found.value;
      }
      assert queries[..|queries|] == queries;
      return Ok(books);
    }

    /** The buckets are saved one after another through the service. */
    method SaveBuckets(buckets: seq<seq<CreateBook>>, crash: Option<nat>) returns (raised: Option<Error>)
      requires service.storage.uow == uow
      modifies uow
      ensures (uow.Snapshot(), raised) == RunBody(old(uow.Snapshot()), SaveBody(buckets), crash)
    {
      ghost var body := SaveBody(buckets);
      ghost var start := uow.Snapshot();
      for i := 0 to |buckets|
        invariant crash.Some? ==> i <= crash.value
        invariant RunBody(start, body, crash) == RunBody(uow.Snapshot(), body[i..], Later(crash, i))
      {
        assert body[i..][0] == body[i] && body[i..][1..] == body[i + 1..];
        if crash == Some(i) {
          return Some(Interrupted);
        }
        var r := service.SaveBulkBooks(buckets[i]);
        if r.Err? {
          return Some(r.error);
        }
      }
      return if crash == Some(|buckets|) then Some(Interrupted) else None;
    }
  }

  function Later(crash: Option<nat>, i: nat): Option<nat>
    requires crash.Some? ==> i <= crash.value
  {
    if crash.None? then None else Some(crash.value - i)
  }

  lemma {:induction false} FailedCollect(catalogue: Catalogue, queries: seq<Query>, i: nat)
    requires i < |queries| && CollectAll(catalogue, queries[..i]).Ok? && Collected(catalogue, queries[i]).Err?
    ensures CollectAll(catalogue, queries) == Err(Collected(catalogue, queries[i]).error)
    decreases |queries|
  {
    if i < |queries| - 1 {
      assert queries[..|queries| - 1][..i] == queries[..i];
      FailedCollect(catalogue, queries[..|queries| - 1], i);
    }
  }

  class RegisterUserCommand {
    const uow: SqlalchemyUow
    const storage: UserStorage
    const crypt: CryptContext

    constructor (uow: SqlalchemyUow, storage: UserStorage, crypt: CryptContext)
      ensures this.uow == uow && this.storage == storage && this.crypt == crypt
    {
      this.uow, this.storage, this.crypt := uow, storage, crypt;
    }

    /** Hash, then insert in one scope; `salt` is what the hash drew. */
    method Execute(username: Str, email: Str, password: Str, salt: nat, faults: Faults)
      returns (error: Option<Error>)
      requires storage.uow == uow
      modifies uow, uow.db
      ensures (uow.Snapshot(), error)
           == Scope(old(uow.Snapshot()), [OnUsers(crypt, RegisterOp(username, email, password, salt))], faults)
    {
      var passwordHash := crypt.hash(password, salt);
      error := uow.CreateTransaction(faults.begin);
      if error.None? {
        SingleStatement(uow.Snapshot(), OnUsers(crypt, RegisterOp(username, email, password, salt)), faults.crash);
        var raised := Some(Interrupted);
        if faults.crash != Some(0) {
          ghost var entered := uow.Snapshot();
          var user := Users.CreateUser(username, email, Some(passwordHash), false, {});
          var r := storage.CreateUser(user);
          assert (uow.Snapshot(), Raised(r)) == Run(entered, OnUsers(crypt, CreateUserOp(user)));
          raised := if r.Ok? && faults.crash == Some(1) then Some(Interrupted) else Raised(r);
        }
        error := uow.Exit(raised, faults);
      }
    }
  }

  class LoginUserCommand {
    const uow: SqlalchemyUow
    const storage: UserStorage
    const crypt: CryptContext

    constructor (uow: SqlalchemyUow, storage: UserStorage, crypt: CryptContext)
      ensures this.uow == uow && this.storage == storage && this.crypt == crypt
    {
      this.uow, this.storage, this.crypt := uow, storage, crypt;
    }

    /** One read in a scope, then the decision outside it. */
    method Execute(username: Str, password: Str, faults: Faults) returns (r: Result<AuthUser, Error>)
      requires storage.uow == uow && AtRest(uow.Snapshot()) && ValidUsers(uow.Snapshot().committed.users)
      modifies uow, uow.db
      ensures uow.Snapshot().committed == old(uow.Snapshot().committed)
      ensures r ==
        if old(uow.transaction) then Err(AlreadyInTransaction)
        else if faults.begin || faults.crash.Some? || faults.commit != Committed || faults.close then Err(Interrupted)
        else Login(crypt, old(uow.Snapshot()).committed.users, username, password)
    {
      var refused := uow.CreateTransaction(faults.begin);
      if refused.Some? {
        return Err(refused.value);
      }
      if faults.crash.Some? {
        var error := uow.Exit(Some(Interrupted), faults);
        return Err(if error.Some? then error.value else Interrupted);
      }
      var credentials := storage.FetchCredentials(username);
      var error := uow.Exit(Raised(credentials), faults);
      if error.Some? {
        return Err(error.value);
      }
      match credentials.value {
        case None => return Err(InvalidCredentials);
        case Some((id, user)) =>
          match crypt.verify(password, user.passwordHash.value) {
            case Match => return Ok(AuthUser(id, user.isSuperuser, user.permissions));
            case Mismatch => return Err(InvalidCredentials);
            case UnknownHash => return Err(InvalidCredentials);
          }
      }
    }
  }
}
