/** The objects over the database: unit of work, storages and services. Every method is proved to be
    a step of the unit-of-work machine. */
module StorageObjects {
  import opened Prelude
  import opened Books
  import opened Users
  import opened Paging
  import opened Slices
  import opened UnitOfWork

  class Database {
    var committed: Tables
    var open: nat

    constructor (tables: Tables)
      ensures committed == tables && open == 0
    {
      committed, open := tables, 0;
    }
  }

  class SqlalchemyUow {
    const db: Database
    var session: Option<Session>
    var transaction: bool

    ghost function Snapshot(): Uow
      reads this, db
    {
      Uow(session, transaction, db.committed, db.open)
    }

    constructor (db: Database)
      ensures this.db == db && session.None? && !transaction
    {
      this.db := db;
      session, transaction := None, false;
    }

    /** The tables a statement of the current session sees; the session property raises without one,
        the database once it has refused a statement. */
    method View() returns (r: Result<Tables, Error>)
      ensures r == Seen(Snapshot())
    {
      match session {
        case None => return Err(NoSession);
        case Some(s) =>
          match s {
            case Fresh => return Ok(db.committed);
            case Active(tables) => return Ok(tables);
            case Aborted => return Err(AbortedTransaction);
          }
      }
    }

    method CreateTransaction(fails: bool) returns (error: Option<Error>)
      modifies this, db
      ensures (Snapshot(), error) == UnitOfWork.CreateTransaction(old(Snapshot()), fails)
    {
      if session.Some? {
        if transaction {
          return Some(AlreadyInTransaction);
        }
      } else {
        session := Some(Fresh);
        db.open := db.open + 1;
      }
      if fails || !session.value.Fresh? {
        return Some(Interrupted);
      }
      session := Some(Active(db.committed));
      transaction := true;
      return None;
    }

    method Commit(fate: CommitFate) returns (error: Option<Error>)
      modifies this, db
      ensures (Snapshot(), error) == UnitOfWork.Commit(old(Snapshot()), fate)
    {
      if session.None? {
        return Some(NoSession);
      }
      var ended := session.value;
      session := Some(Fresh);
      if fate != LostBefore && ended.Active? {
        db.committed := ended.tables;
      }
      return if fate == Committed then None else Some(Interrupted);
    }

    method Rollback(fails: bool) returns (error: Option<Error>)
      modifies this
      ensures (Snapshot(), error) == UnitOfWork.Rollback(old(Snapshot()), fails)
    {
      if session.None? {
        return Some(NoSession);
      }
      if fails {
        return Some(Interrupted);
      }
      session := Some(Fresh);
      transaction := false;
      return None;
    }

    method CloseTransaction(fails: bool) returns (error: Option<Error>)
      modifies this, db
      ensures (Snapshot(), error) == UnitOfWork.CloseTransaction(old(Snapshot()), fails)
    {
      if session.None? {
        return Some(NoSession);
      }
      if fails {
        return Some(Interrupted);
      }
      db.open := if db.open > 0 then db.open - 1 else 0;
      transaction := false;
      session := None;
      return None;
    }

    /** Leaving the scope: roll back after an exception, otherwise commit; then close. */
    method Exit(raised: Option<Error>, faults: Faults) returns (error: Option<Error>)
      modifies this, db
      ensures (Snapshot(), error) == UnitOfWork.Exit(old(Snapshot()), raised, faults)
    {
      if raised.Some? {
        error := Rollback(faults.rollback);
      } else {
        error := Commit(faults.commit);
      }
      if error.Some? {
        return;
      }
      var late := CloseTransaction(faults.close);
      error := if late.Some? then late else raised;
    }

    /** What a writing statement leaves in the session. */
    method Store(tables: Tables)
      modifies this`session
      ensures session == Some(Active(tables))
    {
      session := Some(Active(tables));
    }

    /** The database refuses a statement of the session. */
    method Abort()
      modifies this`session
      ensures session == Some(Aborted)
    {
      session := Some(Aborted);
    }
  }

  function Raised<T>(r: Result<T, Error>): Option<Error> {
    match r case Ok(_) => None case Err(e) => Some(e)
  }

  class BookStorage {
    const uow: SqlalchemyUow

    constructor (uow: SqlalchemyUow)
      ensures this.uow == uow
    {
      this.uow := uow;
    }

    method FetchBookById(id: BookId) returns (r: Result<Option<Content>, Error>)
      ensures match Seen(uow.Snapshot())
              case Err(e) => r == Err(e)
              case Ok(tables) =>
                var view := Books.View(tables.books);
                r == Ok(if id in view then Some(view[id]) else None)
    {
      var view :- uow.View();
      var rows := view.books.rows;
      return Ok(if id in rows && rows[id].deletedAt.None? then Some(rows[id].content) else None);
    }

    method ExistsBookById(id: BookId) returns (r: Result<bool, Error>)
      ensures match Seen(uow.Snapshot())
              case Err(e) => r == Err(e)
              case Ok(tables) => r == Ok(id in Books.View(tables.books))
    {
      var view :- uow.View();
      return Ok(IsLive(view.books, id));
    }

    method CountBooks() returns (r: Result<nat, Error>)
      ensures match Seen(uow.Snapshot())
              case Err(e) => r == Err(e)
              case Ok(tables) => r == Ok(CountLive(tables.books))
    {
      var view :- uow.View();
      return Ok(|LiveIds(view.books)|);
    }

    method FetchBookList(limit: nat, offset: nat) returns (r: Result<seq<Book>, Error>)
      ensures match Seen(uow.Snapshot())
              case Err(e) => r == Err(e)
              case Ok(tables) => r == Ok(FetchList(tables.books, limit, offset))
    {
      var view :- uow.View();
      return Ok(Slice(Listing(view.books), offset, limit));
    }

    method CreateBook(book: CreateBook) returns (r: Result<Book, Error>)
      modifies uow
      ensures (uow.Snapshot(), Raised(r)) == Run(old(uow.Snapshot()), OnBooks(CreateOp(book)))
      ensures r.Ok? ==> Seen(old(uow.Snapshot())).Ok? &&
                        r.value == Book(Seen(old(uow.Snapshot())).value.books.next, Stored(book))
      ensures r.Ok? ==> Seen(uow.Snapshot()).Ok? && IsLive(Seen(uow.Snapshot()).value.books, r.value.id)
    {
      var view :- uow.View();
      var table := view.books;
      var content := Content(Truncate(book.title), book.year, Truncate(book.author));
      if content in LiveKeys(table) {
        uow.Abort();
        return Err(AlreadyExists);
      }
      uow.Store(view.(books := Append(table, content)));
      return Ok(Book(table.next, content));
    }

    /** The statement marks the row whether or not it is live; the service checks first. */
    method DeleteBookById(id: BookId, now: nat) returns (r: Result<(), Error>)
      modifies uow
      ensures match Seen(old(uow.Snapshot()))
              case Err(e) => r == Err(e) && uow.Snapshot() == old(uow.Snapshot())
              case Ok(view) =>
                && r.Ok?
                && uow.Snapshot() == old(uow.Snapshot()).(
                     session := Some(Active(view.(books := MarkDeleted(view.books, id, now)))))
    {
      var view :- uow.View();
      var table := view.books;
      if id in table.rows {
        table := table.(rows := table.rows[id := table.rows[id].(deletedAt := Some(now))]);
      }
      uow.Store(view.(books := table));
      return Ok(());
    }

    method UpdateBookById(update: UpdateBook) returns (r: Result<Book, Error>)
      modifies uow
      ensures
        var before := old(uow.Snapshot());
        match Seen(before)
        case Err(e) => r == Err(e) && uow.Snapshot() == before
        case Ok(view) =>
          match SetValues(view.books, update.id, ToDict(update))
          case Err(e) => r == Err(e) && uow.Snapshot() == Refused(before, e)
          case Ok(books) =>
            && r.Ok? && r.value.id == update.id && update.id in books.rows
            && r.value.content == books.rows[update.id].content
            && uow.Snapshot() == before.(session := Some(Active(view.(books := books))))
    {
      var view :- uow.View();
      var values := UpdateToDict(update);
      var updated := SetValues(view.books, update.id, values);
      if updated.Err? {
        if Aborts(updated.error) {
          uow.Abort();
        }
        return Err(updated.error);
      }
      uow.Store(view.(books := updated.value));
      return Ok(Book(update.id, updated.value.rows[update.id].content));
    }

    /** One INSERT ... ON CONFLICT DO NOTHING with all rows, taken row by row. */
    method SaveBulkBooks(books: seq<CreateBook>) returns (r: Result<(), Error>)
      modifies uow
      ensures (uow.Snapshot(), Raised(r)) == Run(old(uow.Snapshot()), OnBooks(SaveBulkOp(books)))
    {
      var view :- uow.View();
      if books == [] {
        uow.Abort();
        return Err(IntegrityError);
      }
      var table := view.books;
      for i := 0 to |books|
        invariant SaveAll(table, books[i..]) == SaveAll(view.books, books)
      {
        var content := Stored(books[i]);
        assert books[i..][1..] == books[i + 1..];
        if content in LiveKeys(table) {
          table := table.(next := table.next + 1);
        } else {
          table := Table(table.rows[table.next := Row(content, None)], table.next + 1);
        }
      }
      uow.Store(view.(books := table));
      return Ok(());
    }
  }

  /** `UpdateBook.to_dict`: a local dict filled under three conditions. */
  method UpdateToDict(u: UpdateBook) returns (values: map<Column, Cell>)
    ensures values == ToDict(u)
    ensures TitleColumn in values <==> !u.title.Unset?
    ensures YearColumn in values <==> !u.year.Unset?
    ensures AuthorColumn in values <==> !u.author.Unset?
    ensures SetsNull(values) <==> u.title.Null? || u.year.Null? || u.author.Null?
  {
    values := map[];
    if !u.title.Unset? {
      values := values[TitleColumn := TextCell(u.title)];
    }
    if !u.year.Unset? {
      values := values[YearColumn := NumberCell(u.year)];
    }
    if !u.author.Unset? {
      values := values[AuthorColumn := TextCell(u.author)];
    }
  }

  class BookService {
    const storage: BookStorage

    constructor (storage: BookStorage)
      ensures this.storage == storage
    {
      this.storage := storage;
    }

    method FetchBookById(id: BookId) returns (r: Result<Content, Error>)
      ensures match Seen(storage.uow.Snapshot())
              case Err(e) => r == Err(e)
              case Ok(tables) =>
                var view := Books.View(tables.books);
                r == if id in view then Ok(view[id]) else Err(NotFound)
    {
      var found :- storage.FetchBookById(id);
      match found {
        case None => return Err(NotFound);
        case Some(content) => return Ok(content);
      }
    }

    method FetchBookList(limit: nat, offset: nat) returns (r: Result<(nat, seq<Book>), Error>)
      ensures match Seen(storage.uow.Snapshot())
              case Err(e) => r == Err(e)
              case Ok(tables) => r == Ok((CountLive(tables.books), FetchList(tables.books, limit, offset)))
    {
      var total :- storage.CountBooks();
      var items := storage.FetchBookList(limit, offset);
      return Ok((total, items.value));
    }

    method CreateBook(book: CreateBook) returns (r: Result<Book, Error>)
      modifies storage.uow
      ensures (storage.uow.Snapshot(), Raised(r)) == Run(old(storage.uow.Snapshot()), OnBooks(CreateOp(book)))
      ensures r.Ok? ==> Seen(storage.uow.Snapshot()).Ok? &&
                        IsLive(Seen(storage.uow.Snapshot()).value.books, r.value.id)
    {
      r := storage.CreateBook(book);
    }

    method SaveBulkBooks(books: seq<CreateBook>) returns (r: Result<(), Error>)
      modifies storage.uow
      ensures (storage.uow.Snapshot(), Raised(r)) == Run(old(storage.uow.Snapshot()), OnBooks(SaveBulkOp(books)))
    {
      r := storage.SaveBulkBooks(books);
    }

    method DeleteBookById(id: BookId, now: nat) returns (r: Result<(), Error>)
      modifies storage.uow
      ensures (storage.uow.Snapshot(), Raised(r)) == Run(old(storage.uow.Snapshot()), OnBooks(DeleteOp(id, now)))
    {
      var found :- storage.ExistsBookById(id);
      if !found {
        return Err(NotFound);
      }
      r := storage.DeleteBookById(id, now);
    }

    method UpdateBookById(update: UpdateBook) returns (r: Result<Book, Error>)
      modifies storage.uow
      ensures (storage.uow.Snapshot(), Raised(r)) == Run(old(storage.uow.Snapshot()), OnBooks(UpdateOp(update)))
    {
      var found :- storage.ExistsBookById(update.id);
      if !found {
        return Err(NotFound);
      }
      r := storage.UpdateBookById(update);
    }
  }

  class UserStorage {
    const uow: SqlalchemyUow

    constructor (uow: SqlalchemyUow)
      ensures this.uow == uow
    {
      this.uow := uow;
    }

    method ExistsUserById(id: UserId) returns (r: Result<bool, Error>)
      ensures match Seen(uow.Snapshot())
              case Err(e) => r == Err(e)
              case Ok(tables) => r == Ok(IsActive(tables.users, id))
    {
      var view :- uow.View();
      return Ok(IsActive(view.users, id));
    }

    /** The credentials of the live row with this name, if it has a password; the query returns some
        such row. */
    method FetchCredentials(username: Str) returns (r: Result<Option<(UserId, User)>, Error>)
      requires Seen(uow.Snapshot()).Ok? ==> ValidUsers(Seen(uow.Snapshot()).value.users)
      ensures match Seen(uow.Snapshot())
              case Err(e) => r == Err(e)
              case Ok(tables) =>
                var rows := tables.users.rows;
                var found := FindActive(tables.users, username);
                r == Ok(if found.None? || rows[found.value].user.passwordHash.None? then None
                        else Some((found.value, rows[found.value].user)))
    {
      var view :- uow.View();
      var users := view.users;
      var ids := users.rows.Keys;
      while ids != {}
        invariant ids <= users.rows.Keys
        invariant forall id :: ActiveNamed(users, id, username) ==> id in ids
        decreases |ids|
      {
        var id :| id in ids;
        if ActiveNamed(users, id, username) {
          var user := users.rows[id].user;
          return Ok(if user.passwordHash.None? then None else Some((id, user)));
        }
        ids := ids - {id};
      }
      return Ok(None);
    }

    method CreateUser(user: CreateUser) returns (r: Result<UserId, Error>)
      modifies uow
      ensures forall crypt {:trigger OnUsers(crypt, CreateUserOp(user))} ::
                (uow.Snapshot(), Raised(r)) == Run(old(uow.Snapshot()), OnUsers(crypt, CreateUserOp(user)))
      ensures r.Ok? ==> Seen(uow.Snapshot()).Ok? && IsActive(Seen(uow.Snapshot()).value.users, r.value)
    {
      var view :- uow.View();
      var users := view.users;
      var row := NewUser(user);
      if row.None? {
        uow.Abort();
        return Err(DataError);
      }
      if Clashes(users, row.value, None) {
        uow.Abort();
        return Err(AlreadyExists);
      }
      uow.Store(view.(users := UserTable(users.rows[users.next := UserRow(row.value, None)], users.next + 1)));
      return Ok(users.next);
    }

    method DeleteUserById(id: UserId, now: nat) returns (r: Result<(), Error>)
      modifies uow
      ensures match Seen(old(uow.Snapshot()))
              case Err(e) => r == Err(e) && uow.Snapshot() == old(uow.Snapshot())
              case Ok(view) =>
                && r.Ok?
                && uow.Snapshot() == old(uow.Snapshot()).(
                     session := Some(Active(view.(users := MarkUserDeleted(view.users, id, now)))))
    {
      var view :- uow.View();
      uow.Store(view.(users := MarkUserDeleted(view.users, id, now)));
      return Ok(());
    }

    method UpdateUserById(update: UpdateUser) returns (r: Result<UserId, Error>)
      modifies uow
      ensures
        var before := old(uow.Snapshot());
        match Seen(before)
        case Err(e) => r == Err(e) && uow.Snapshot() == before
        case Ok(view) =>
          match SetUser(view.users, update)
          case Err(e) => r == Err(e) && uow.Snapshot() == Refused(before, e)
          case Ok(users) =>
            && r == Ok(update.id)
            && uow.Snapshot() == before.(session := Some(Active(view.(users := users))))
    {
      var view :- uow.View();
      var updated := SetUser(view.users, update);
      if updated.Err? {
        if Aborts(updated.error) {
          uow.Abort();
        }
        return Err(updated.error);
      }
      uow.Store(view.(users := updated.value));
      return Ok(update.id);
    }
  }

  class UserService {
    const storage: UserStorage

    constructor (storage: UserStorage)
      ensures this.storage == storage
    {
      this.storage := storage;
    }

    method DeleteUserById(ghost crypt: CryptContext, id: UserId, now: nat) returns (r: Result<(), Error>)
      modifies storage.uow
      ensures (storage.uow.Snapshot(), Raised(r))
           == Run(old(storage.uow.Snapshot()), OnUsers(crypt, DeleteUserOp(id, now)))
    {
      var found :- storage.ExistsUserById(id);
      if !found {
        return Err(NotFound);
      }
      r := storage.DeleteUserById(id, now);
    }

    method UpdateUserById(ghost crypt: CryptContext, update: UpdateUser) returns (r: Result<UserId, Error>)
      modifies storage.uow
      ensures (storage.uow.Snapshot(), Raised(r))
           == Run(old(storage.uow.Snapshot()), OnUsers(crypt, UpdateUserOp(update)))
    {
      var found :- storage.ExistsUserById(update.id);
      if !found {
        return Err(NotFound);
      }
      r := storage.UpdateUserById(update);
    }
  }
}
