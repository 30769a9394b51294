/** What any run of scopes keeps, whatever its bodies write and whichever of their steps fail. */
module ScopeLaws {
  import opened Prelude
  import opened Books
  import opened BookLaws
  import opened Users
  import opened UserLaws
  import opened UnitOfWork

  ghost predicate ValidTables(t: Tables) {
    Valid(t.books) && ValidUsers(t.users)
  }

  ghost predicate KeepsTables(s: Tables, t: Tables) {
    KeepsRows(s.books, t.books) && KeepsAccounts(s.users, t.users)
  }

  lemma KeepsTablesTransitive(s: Tables, t: Tables, u: Tables)
    requires KeepsTables(s, t) && KeepsTables(t, u)
    ensures KeepsTables(s, u)
  {
    KeepsRowsTransitive(s.books, t.books, u.books);
  }

  lemma ExecuteKeeps(tables: Tables, s: Statement)
    requires ValidTables(tables) && Execute(tables, s).Ok?
    ensures ValidTables(Execute(tables, s).value) && KeepsTables(tables, Execute(tables, s).value)
  {
    match s
    case OnBooks(op) => ServeKeeps(tables.books, op);
    case OnUsers(crypt, op) => ServeUserKeeps(crypt, tables.users, op);
  }

  lemma {:induction false} ExecuteAllKeeps(tables: Tables, body: seq<Statement>)
    requires ValidTables(tables) && ExecuteAll(tables, body).Ok?
    ensures ValidTables(ExecuteAll(tables, body).value) && KeepsTables(tables, ExecuteAll(tables, body).value)
    decreases |body|
  {
    if body != [] {
      var next := Execute(tables, body[0]).value;
      ExecuteKeeps(tables, body[0]);
      ExecuteAllKeeps(next, body[1..]);
      KeepsTablesTransitive(tables, next, ExecuteAll(tables, body).value);
    }
  }

  /** Any scopes, of any number of statements each and with any faults, leave committed tables in which
      no two live books share a key, no two users a name or an email, no row is lost, and no deleted
      row has changed. */
  lemma {:induction false} ScopesKeep(u: Uow, bodies: seq<seq<Statement>>, faults: seq<Faults>)
    requires |faults| == |bodies| && AtRest(u) && ValidTables(u.committed)
    ensures
      var v := Scopes(u, bodies, faults);
      AtRest(v) && ValidTables(v.committed) && KeepsTables(u.committed, v.committed)
    decreases |bodies|
  {
    if bodies != [] {
      var next := Scope(u, bodies[0], faults[0]).0;
      ScopeIsAtomic(u, bodies[0], faults[0]);
      if Lands(u, bodies[0], faults[0]) {
        ExecuteAllKeeps(u.committed, bodies[0]);
      }
      ScopesKeep(next, bodies[1..], faults[1..]);
      KeepsTablesTransitive(u.committed, next.committed, Scopes(u, bodies, faults).committed);
    }
  }

  // ---- a run of scopes is a serial history ----

  /** The statements of the scopes that reached the database, in order. */
  function Landed(u: Uow, bodies: seq<seq<Statement>>, faults: seq<Faults>): seq<Statement>
    requires |faults| == |bodies|
    decreases |bodies|
  {
    if bodies == [] then []
    else
      (if Lands(u, bodies[0], faults[0]) then bodies[0] else []) +
      Landed(Scope(u, bodies[0], faults[0]).0, bodies[1..], faults[1..])
  }

  function BookPart(s: Statement): seq<Op> {
    if s.OnBooks? then [s.op] else []
  }

  function UserPart(s: Statement): seq<UserOp> {
    if s.OnUsers? then [s.userOp] else []
  }

  function BookOps(body: seq<Statement>): seq<Op> {
    if body == [] then [] else BookPart(body[0]) + BookOps(body[1..])
  }

  function UserOps(body: seq<Statement>): seq<UserOp> {
    if body == [] then [] else UserPart(body[0]) + UserOps(body[1..])
  }

  /** Every statement hashes with the same context. */
  ghost predicate HashedBy(crypt: CryptContext, s: Statement) {
    s.OnUsers? ==> s.crypt == crypt
  }

  /** What the two histories make of the tables. */
  function Replay(crypt: CryptContext, tables: Tables, body: seq<Statement>): Tables {
    Tables(History(tables.books, BookOps(body)), UserHistory(crypt, tables.users, UserOps(body)))
  }

  lemma {:induction false} BookOpsConcat(a: seq<Statement>, b: seq<Statement>)
    ensures BookOps(a + b) == BookOps(a) + BookOps(b)
  {
    if a == [] {
      assert a + b == b;
    } else {
      BookOpsConcat(a[1..], b);
      assert (a + b)[0] == a[0] && (a + b)[1..] == a[1..] + b;
      ConcatAssociates(BookPart(a[0]), BookOps(a[1..]), BookOps(b));
    }
  }

  lemma {:induction false} UserOpsConcat(a: seq<Statement>, b: seq<Statement>)
    ensures UserOps(a + b) == UserOps(a) + UserOps(b)
  {
    if a == [] {
      assert a + b == b;
    } else {
      UserOpsConcat(a[1..], b);
      assert (a + b)[0] == a[0] && (a + b)[1..] == a[1..] + b;
      ConcatAssociates(UserPart(a[0]), UserOps(a[1..]), UserOps(b));
    }
  }

  lemma {:induction false} HistoryConcat(t: Table, a: seq<Op>, b: seq<Op>)
    ensures History(t, a + b) == History(History(t, a), b)
  {
    if b == [] {
      assert a + b == a;
    } else {
      HistoryConcat(t, a, b[..|b| - 1]);
      assert (a + b)[..|a + b| - 1] == a + b[..|b| - 1];
    }
  }

  lemma {:induction false} UserHistoryConcat(crypt: CryptContext, t: UserTable, a: seq<UserOp>, b: seq<UserOp>)
    ensures UserHistory(crypt, t, a + b) == UserHistory(crypt, UserHistory(crypt, t, a), b)
  {
    if b == [] {
      assert a + b == a;
    } else {
      UserHistoryConcat(crypt, t, a, b[..|b| - 1]);
      assert (a + b)[..|a + b| - 1] == a + b[..|b| - 1];
    }
  }

  lemma ReplayConcat(crypt: CryptContext, tables: Tables, a: seq<Statement>, b: seq<Statement>)
    ensures Replay(crypt, tables, a + b) == Replay(crypt, Replay(crypt, tables, a), b)
  {
    BookOpsConcat(a, b);
    UserOpsConcat(a, b);
    HistoryConcat(tables.books, BookOps(a), BookOps(b));
    UserHistoryConcat(crypt, tables.users, UserOps(a), UserOps(b));
  }

  lemma ReplayOne(crypt: CryptContext, tables: Tables, s: Statement)
    requires HashedBy(crypt, s) && Execute(tables, s).Ok?
    ensures Replay(crypt, tables, [s]) == Execute(tables, s).value
  {
    assert [s][1..] == [] && BookOps([s][1..]) == [] && UserOps([s][1..]) == [];
    match s
    case OnBooks(op) =>
      assert BookOps([s]) == [op] && UserOps([s]) == [] && [op][..0] == [];
      assert History(tables.books, [op]) == Serve(tables.books, op);
    case OnUsers(_, op) =>
      assert BookOps([s]) == [] && UserOps([s]) == [op] && [op][..0] == [];
      assert UserHistory(crypt, tables.users, [op]) == ServeUser(crypt, tables.users, op);
  }

  lemma {:induction false} BodyIsHistory(crypt: CryptContext, tables: Tables, body: seq<Statement>)
    requires (forall s :: s in body ==> HashedBy(crypt, s)) && ExecuteAll(tables, body).Ok?
    ensures ExecuteAll(tables, body).value == Replay(crypt, tables, body)
    decreases |body|
  {
    if body != [] {
      ReplayOne(crypt, tables, body[0]);
      BodyIsHistory(crypt, Execute(tables, body[0]).value, body[1..]);
      ReplayConcat(crypt, tables, [body[0]], body[1..]);
      assert [body[0]] + body[1..] == body;
    }
  }

  /** The committed tables after any run of scopes are those of the serial histories made of the scopes
      that reached the database; so every law of histories is one of the unit of work. */
  lemma {:induction false} ScopesAreHistories(
      crypt: CryptContext, u: Uow, bodies: seq<seq<Statement>>, faults: seq<Faults>)
    requires |faults| == |bodies| && AtRest(u)
    requires forall body, s :: body in bodies && s in body ==> HashedBy(crypt, s)
    ensures Scopes(u, bodies, faults).committed == Replay(crypt, u.committed, Landed(u, bodies, faults))
    decreases |bodies|
  {
    if bodies != [] {
      var next := Scope(u, bodies[0], faults[0]).0;
      var first := if Lands(u, bodies[0], faults[0]) then bodies[0] else [];
      ScopeIsAtomic(u, bodies[0], faults[0]);
      if Lands(u, bodies[0], faults[0]) {
        BodyIsHistory(crypt, u.committed, bodies[0]);
      }
      assert next.committed == Replay(crypt, u.committed, first);
      ScopesAreHistories(crypt, next, bodies[1..], faults[1..]);
      ReplayConcat(crypt, u.committed, first, Landed(next, bodies[1..], faults[1..]));
    }
  }
}
