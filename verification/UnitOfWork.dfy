/** The unit of work as a state machine: session and transaction options over a committed database,
    with a failure possible at every step, and the scope that use cases run in. */
module UnitOfWork {
  import opened Prelude
  import opened Books
  import opened Users

  datatype Tables = Tables(books: Table, users: UserTable)

  /** A database session: it has begun nothing, works on the view of its transaction, or has had a
      statement refused by the database, after which the transaction accepts only its end. */
  datatype Session = Fresh | Active(tables: Tables) | Aborted

  /** `open` counts the sessions opened and not closed. */
  datatype Uow = Uow(session: Option<Session>, transaction: bool, committed: Tables, open: nat)

  /** A failing commit may or may not have reached the database. */
  datatype CommitFate = Committed | LostBefore | LostAfter

  datatype Statement = OnBooks(op: Op) | OnUsers(crypt: CryptContext, userOp: UserOp)

  function Execute(tables: Tables, s: Statement): Result<Tables, Error> {
    match s
    case OnBooks(op) =>
      (match Apply(tables.books, op) case Ok(books) => Ok(tables.(books := books)) case Err(e) => Err(e))
    case OnUsers(crypt, op) =>
      (match ApplyUser(crypt, tables.users, op) case Ok(users) => Ok(tables.(users := users)) case Err(e) => Err(e))
  }

  // ---- the steps; each gives the next state and the exception it raises, if any ----

  function CreateTransaction(u: Uow, fails: bool): (Uow, Option<Error>) {
    if u.session.Some? then
      if u.transaction then (u, Some(AlreadyInTransaction)) else Begin(u, u.session.value, fails)
    else
      Begin(u.(session := Some(Fresh), open := u.open + 1), Fresh, fails)
  }

  /** Beginning a transaction, refused by a session that has begun one already. */
  function Begin(u: Uow, session: Session, fails: bool): (Uow, Option<Error>) {
    if fails || !session.Fresh? then (u, Some(Interrupted))
    else (u.(session := Some(Active(u.committed)), transaction := true), None)
  }

  /** What a statement of the current session sees, or the error it raises. */
  function Seen(u: Uow): Result<Tables, Error> {
    match u.session
    case None => Err(NoSession)
    case Some(Fresh) => Ok(u.committed)
    case Some(Active(tables)) => Ok(tables)
    case Some(Aborted) => Err(AbortedTransaction)
  }

  /** The errors the database itself raises: they abort the transaction. */
  predicate Aborts(e: Error) {
    e.AlreadyExists? || e.IntegrityError? || e.UnknownError? || e.DataError?
  }

  /** A statement of a storage; a session without a transaction begins one by itself. */
  function Run(u: Uow, s: Statement): (Uow, Option<Error>) {
    match Seen(u)
    case Err(e) => (u, Some(e))
    case Ok(view) =>
      match Execute(view, s)
      case Ok(tables) => (u.(session := Some(Active(tables))), None)
      case Err(e) => (Refused(u, e), Some(e))
  }

  function Refused(u: Uow, e: Error): Uow {
    if Aborts(e) then u.(session := Some(Aborted)) else u
  }

  /** What a commit that reaches the database leaves; of an aborted transaction nothing. */
  function Written(u: Uow): Tables {
    if u.session.Some? && u.session.value.Active? then u.session.value.tables else u.committed
  }

  function Commit(u: Uow, fate: CommitFate): (Uow, Option<Error>) {
    if u.session.None? then (u, Some(NoSession))
    else
      var ended := u.(session := Some(Fresh));
      match fate
      case Committed => (ended.(committed := Written(u)), None)
      case LostBefore => (ended, Some(Interrupted))
      case LostAfter => (ended.(committed := Written(u)), Some(Interrupted))
  }

  function Rollback(u: Uow, fails: bool): (Uow, Option<Error>) {
    if u.session.None? then (u, Some(NoSession))
    else if fails then (u, Some(Interrupted))
    else (u.(session := Some(Fresh), transaction := false), None)
  }

  function CloseTransaction(u: Uow, fails: bool): (Uow, Option<Error>) {
    if u.session.None? then (u, Some(NoSession))
    else if fails then (u, Some(Interrupted))
    else (u.(session := None, transaction := false, open := if u.open > 0 then u.open - 1 else 0), None)
  }

  // ---- the scope a use case runs in ----

  /** Which steps of one scope fail; `crash` is the statement before which the body is interrupted,
      its length standing for the moment after the last one. */
  datatype Faults = Faults(begin: bool, crash: Option<nat>, commit: CommitFate, rollback: bool, close: bool)

  function RunBody(u: Uow, body: seq<Statement>, crash: Option<nat>): (Uow, Option<Error>)
    decreases |body|
  {
    if crash == Some(0) then (u, Some(Interrupted))
    else if body == [] then (u, None)
    else
      var (next, error) := Run(u, body[0]);
      if error.Some? then (next, error)
      else RunBody(next, body[1..], if crash.None? then None else Some(crash.value - 1))
  }

  /** Leaving the scope: roll back after an exception, otherwise commit; then close. */
  function Exit(u: Uow, raised: Option<Error>, faults: Faults): (Uow, Option<Error>) {
    var (ended, error) := if raised.Some? then Rollback(u, faults.rollback) else Commit(u, faults.commit);
    if error.Some? then (ended, error)
    else
      var (closed, late) := CloseTransaction(ended, faults.close);
      (closed, if late.Some? then late else raised)
  }

  /** The whole scope: the state it leaves and the exception that comes out of it. */
  function Scope(u: Uow, body: seq<Statement>, faults: Faults): (Uow, Option<Error>) {
    var (entered, refused) := CreateTransaction(u, faults.begin);
    if refused.Some? then (entered, refused)
    else
      var (worked, raised) := RunBody(entered, body, faults.crash);
      Exit(worked, raised, faults)
  }

  // ---- what every step keeps ----

  /** A set transaction implies a set session, and one session is open exactly while one is held. */
  ghost predicate Sound(u: Uow) {
    && (u.transaction ==> u.session.Some?)
    && u.open == (if u.session.Some? then 1 else 0)
  }

  datatype Call =
    | CreateCall(fails: bool)
    | RunCall(statement: Statement)
    | CommitCall(fate: CommitFate)
    | RollbackCall(fails: bool)
    | CloseCall(fails: bool)

  function After(u: Uow, c: Call): Uow {
    match c
    case CreateCall(fails) => CreateTransaction(u, fails).0
    case RunCall(s) => Run(u, s).0
    case CommitCall(fate) => Commit(u, fate).0
    case RollbackCall(fails) => Rollback(u, fails).0
    case CloseCall(fails) => CloseTransaction(u, fails).0
  }

  function AfterAll(u: Uow, calls: seq<Call>): Uow {
    if calls == [] then u else After(AfterAll(u, calls[..|calls| - 1]), calls[|calls| - 1])
  }

  /** Whatever is called in whatever order and whichever calls fail: no transaction without a session,
      never a second session while one is held, and only commit changes what is committed. */
  lemma {:induction false} CallsKeepSound(u: Uow, calls: seq<Call>)
    requires Sound(u)
    ensures Sound(AfterAll(u, calls))
    ensures (forall i :: 0 <= i < |calls| ==> !calls[i].CommitCall?) ==> AfterAll(u, calls).committed == u.committed
  {
    if calls != [] {
      CallsKeepSound(u, calls[..|calls| - 1]);
    }
  }

  /** The exception a call raises, if any. */
  function Raises(u: Uow, c: Call): Option<Error> {
    match c
    case CreateCall(fails) => CreateTransaction(u, fails).1
    case RunCall(s) => Run(u, s).1
    case CommitCall(fate) => Commit(u, fate).1
    case RollbackCall(fails) => Rollback(u, fails).1
    case CloseCall(fails) => CloseTransaction(u, fails).1
  }

  /** Without a session everything but opening one raises, and changes nothing. */
  lemma WithoutSession(u: Uow, c: Call)
    requires u.session.None? && !c.CreateCall?
    ensures After(u, c) == u && Raises(u, c) == Some(NoSession)
  {
  }

  /** A statement of a session that has begun nothing works as if its transaction had just begun. */
  lemma BeginsByItself(u: Uow, s: Statement)
    requires u.session == Some(Fresh)
    ensures
      var begun := u.(session := Some(Active(u.committed)));
      && Run(u, s).1 == Run(begun, s).1
      && (Run(u, s).1 != Some(NotFound) ==> Run(u, s).0 == Run(begun, s).0)
  {
  }

  /** A session that has begun, or whose transaction is still held, cannot begin again; a fresh one, or a
      new one, begins on the committed tables. */
  lemma BeginsOnce(u: Uow, fails: bool)
    requires Sound(u)
    ensures
      var (v, error) := CreateTransaction(u, fails);
      && (u.transaction ==> v == u && error == Some(AlreadyInTransaction))
      && (!u.transaction && u.session.Some? && !u.session.value.Fresh? ==> v == u && error == Some(Interrupted))
      && (!u.transaction && (u.session.None? || u.session.value.Fresh?) ==>
            && v.committed == u.committed && v.open == 1
            && (if fails then v.session == Some(Fresh) && !v.transaction && error == Some(Interrupted)
                else v.session == Some(Active(u.committed)) && v.transaction && error.None?))
  {
  }

  // ---- scopes ----

  /** Between scopes a session may be left over, but a begun one only under a transaction. */
  ghost predicate AtRest(u: Uow) {
    Sound(u) && (u.session.Some? && !u.session.value.Fresh? ==> u.transaction)
  }

  ghost predicate Idle(u: Uow) {
    u.session.None? && !u.transaction
  }

  function ExecuteAll(tables: Tables, body: seq<Statement>): Result<Tables, Error>
    decreases |body|
  {
    if body == [] then Ok(tables)
    else
      match Execute(tables, body[0])
      case Ok(next) => ExecuteAll(next, body[1..])
      case Err(e) => Err(e)
  }

  /** The body works on the session's view and leaves the committed tables alone. */
  lemma {:induction false} BodyWorks(u: Uow, tables: Tables, body: seq<Statement>, crash: Option<nat>)
    requires u.session == Some(Active(tables))
    ensures
      var (v, raised) := RunBody(u, body, crash);
      && v.session.Some? && v.committed == u.committed && v.transaction == u.transaction && v.open == u.open
      && (raised.None? <==> ExecuteAll(tables, body).Ok? && (crash.Some? ==> crash.value > |body|))
      && (raised.None? ==> v.session.value.Active? && ExecuteAll(tables, body) == Ok(v.session.value.tables))
      && (crash.None? && ExecuteAll(tables, body).Err? ==> raised == Some(ExecuteAll(tables, body).error))
    decreases |body|
  {
    if crash != Some(0) && body != [] {
      var (next, error) := Run(u, body[0]);
      if error.None? {
        BodyWorks(next, next.session.value.tables, body[1..], if crash.None? then None else Some(crash.value - 1));
      }
    }
  }

  /** Every statement succeeds and nothing interrupts the body. */
  predicate Completes(tables: Tables, body: seq<Statement>, crash: Option<nat>) {
    ExecuteAll(tables, body).Ok? && (crash.Some? ==> crash.value > |body|)
  }

  lemma EnteredScope(u: Uow, body: seq<Statement>, faults: Faults)
    requires AtRest(u) && CreateTransaction(u, faults.begin).1.None?
    ensures
      var entered := CreateTransaction(u, faults.begin).0;
      var (worked, raised) := RunBody(entered, body, faults.crash);
      && !u.transaction && !faults.begin
      && worked.session.Some? && worked.committed == u.committed && worked.transaction && worked.open == 1
      && (raised.None? <==> Completes(u.committed, body, faults.crash))
      && (raised.None? ==> worked.session.value.Active? && ExecuteAll(u.committed, body) == Ok(Written(worked)))
      && (faults.crash.None? && ExecuteAll(u.committed, body).Err? ==>
            raised == Some(ExecuteAll(u.committed, body).error))
  {
    BodyWorks(CreateTransaction(u, faults.begin).0, u.committed, body, faults.crash);
  }

  lemma Exits(u: Uow, raised: Option<Error>, faults: Faults)
    requires u.session.Some? && u.transaction && u.open == 1
    ensures
      var (v, error) := Exit(u, raised, faults);
      var ended := if raised.Some? then !faults.rollback else faults.commit == Committed;
      && AtRest(v)
      && v.committed == (if raised.Some? || faults.commit == LostBefore then u.committed else Written(u))
      && (Idle(v) <==> ended && !faults.close)
      && (!v.transaction <==> ended && (raised.Some? || !faults.close))
      && (error.None? <==> raised.None? && ended && !faults.close)
      && error == (if ended && !faults.close then raised else Some(Interrupted))
  {
  }

  /** A scope reaches the database: it begins, its body completes and the commit is not lost. */
  predicate Lands(u: Uow, body: seq<Statement>, faults: Faults) {
    && !u.transaction && !faults.begin
    && Completes(u.committed, body, faults.crash)
    && faults.commit != LostBefore
  }

  /** Whichever step fails, the committed tables are those before the scope or those with all of its
      writes; the latter exactly when the scope began, every statement succeeded, the body was not
      interrupted and the commit reached the database. A scope that raises nothing has all of them. */
  lemma ScopeIsAtomic(u: Uow, body: seq<Statement>, faults: Faults)
    requires AtRest(u)
    ensures
      var (v, raised) := Scope(u, body, faults);
      && AtRest(v)
      && (if Lands(u, body, faults)
          then Ok(v.committed) == ExecuteAll(u.committed, body)
          else v.committed == u.committed)
      && (raised.None? <==> Lands(u, body, faults) && faults.commit == Committed && !faults.close)
      && (raised.None? ==> Ok(v.committed) == ExecuteAll(u.committed, body) && Idle(v))
  {
    if CreateTransaction(u, faults.begin).1.None? {
      EnteredScope(u, body, faults);
      var (worked, raised) := RunBody(CreateTransaction(u, faults.begin).0, body, faults.crash);
      Exits(worked, raised, faults);
    }
  }

  /** How a body ends: interrupted if it gets that far, otherwise with the error of its first failing
      statement, if there is one. */
  function BodyError(tables: Tables, body: seq<Statement>, crash: Option<nat>): Option<Error> {
    if crash.Some? && crash.value <= |body| && ExecuteAll(tables, body[..crash.value]).Ok? then Some(Interrupted)
    else match ExecuteAll(tables, body) case Ok(_) => None case Err(e) => Some(e)
  }

  lemma {:induction false} BodyRaises(u: Uow, tables: Tables, body: seq<Statement>, crash: Option<nat>)
    requires u.session == Some(Active(tables))
    ensures RunBody(u, body, crash).1 == BodyError(tables, body, crash)
    decreases |body|
  {
    if crash == Some(0) {
      assert body[..0] == [];
    } else if body != [] {
      var (next, error) := Run(u, body[0]);
      if crash.Some? && crash.value <= |body| {
        assert body[..crash.value][0] == body[0] && body[..crash.value][1..] == body[1..][..crash.value - 1];
      }
      if error.None? {
        BodyRaises(next, next.session.value.tables, body[1..], if crash.None? then None else Some(crash.value - 1));
      }
    }
  }

  /** Exactly which exception comes out of a scope. */
  lemma ScopeErrors(u: Uow, body: seq<Statement>, faults: Faults)
    requires AtRest(u)
    ensures
      var error := BodyError(u.committed, body, faults.crash);
      Scope(u, body, faults).1 ==
        if u.transaction then Some(AlreadyInTransaction)
        else if faults.begin then Some(Interrupted)
        else if error.Some? then (if faults.rollback || faults.close then Some(Interrupted) else error)
        else if faults.commit == Committed && !faults.close then None
        else Some(Interrupted)
  {
    if !u.transaction && !faults.begin {
      EnteredScope(u, body, faults);
      var entered := CreateTransaction(u, faults.begin).0;
      BodyRaises(entered, u.committed, body, faults.crash);
      var (worked, raised) := RunBody(entered, body, faults.crash);
      Exits(worked, raised, faults);
    }
  }

  /** The exception of a body that fails by itself comes out of the scope unchanged. */
  lemma ScopeRaises(u: Uow, body: seq<Statement>, faults: Faults)
    requires AtRest(u) && !u.transaction && !faults.begin && faults.crash.None? && !faults.rollback && !faults.close
    requires ExecuteAll(u.committed, body).Err?
    ensures Scope(u, body, faults).1 == Some(ExecuteAll(u.committed, body).error)
    ensures Idle(Scope(u, body, faults).0)
  {
    EnteredScope(u, body, faults);
    var (worked, raised) := RunBody(CreateTransaction(u, faults.begin).0, body, faults.crash);
    Exits(worked, raised, faults);
  }

  /** A scope leaves the unit of work ready for the next one exactly when it could not begin, or its
      commit or rollback succeeded and, after a commit, so did its close. A scope that could not begin
      keeps its session for the next one; once a transaction is left over, every later scope raises
      before it reaches the database. */
  lemma WhenScopesRepeat(u: Uow, body: seq<Statement>, faults: Faults)
    requires AtRest(u) && !u.transaction
    ensures
      var succeeds := Completes(u.committed, body, faults.crash);
      var v := Scope(u, body, faults).0;
      && (!v.transaction <==>
            faults.begin || if succeeds then faults.commit == Committed && !faults.close else !faults.rollback)
      && (Idle(v) <==>
            !faults.begin && (if succeeds then faults.commit == Committed else !faults.rollback) && !faults.close)
      && (faults.begin ==> v.session == Some(Fresh) && v.committed == u.committed)
      && (CreateTransaction(v, false).1.None? <==> !v.transaction)
      && (v.transaction ==> forall more, others :: Scope(v, more, others) == (v, Some(AlreadyInTransaction)))
  {
    if !faults.begin {
      EnteredScope(u, body, faults);
      var (worked, raised) := RunBody(CreateTransaction(u, faults.begin).0, body, faults.crash);
      Exits(worked, raised, faults);
    }
  }

  /** A lost commit of an empty body is enough for the unit of work to refuse every later scope. */
  lemma LostCommitSticks(tables: Tables)
    ensures
      var u := Uow(None, false, tables, 0);
      var v := Scope(u, [], Faults(false, None, LostBefore, false, false)).0;
      && AtRest(u) && v.transaction
      && forall more, others :: Scope(v, more, others) == (v, Some(AlreadyInTransaction))
  {
    WhenScopesRepeat(Uow(None, false, tables, 0), [], Faults(false, None, LostBefore, false, false));
  }

  // ---- an aborted transaction ----

  /** Once a statement has failed in the database, no later statement of the session is accepted and a
      commit writes nothing; only a rollback, a commit or a close ends it. A statement that finds no
      row has not failed there and changes nothing. */
  lemma {:induction false} AbortedWritesNothing(u: Uow, s: Statement, more: seq<Statement>, fate: CommitFate)
    requires Seen(u).Ok? && Run(u, s).1.Some?
    ensures Run(u, s).1 == Some(NotFound) ==> Run(u, s).0 == u
    ensures Run(u, s).1 != Some(NotFound) ==>
      var calls := seq(|more|, i requires 0 <= i < |more| => RunCall(more[i]));
      var v := AfterAll(Run(u, s).0, calls);
      && v == u.(session := Some(Aborted))
      && (forall next :: Run(v, next) == (v, Some(AbortedTransaction)))
      && Commit(v, fate).0.committed == u.committed
  {
    if more != [] {
      var calls := seq(|more|, i requires 0 <= i < |more| => RunCall(more[i]));
      var init := more[..|more| - 1];
      AbortedWritesNothing(u, s, init, fate);
      assert calls[..|calls| - 1] == seq(|init|, i requires 0 <= i < |init| => RunCall(init[i]));
    }
  }

  /** Scopes in sequence, each with its own faults. */
  function Scopes(u: Uow, bodies: seq<seq<Statement>>, faults: seq<Faults>): Uow
    requires |faults| == |bodies|
    decreases |bodies|
  {
    if bodies == [] then u else Scopes(Scope(u, bodies[0], faults[0]).0, bodies[1..], faults[1..])
  }

  ghost predicate Committing(f: Faults) {
    !f.begin && f.crash.None? && f.commit.Committed? && !f.rollback && !f.close
  }

  /** Without faults scopes can be repeated without bound, and the database is that of the bodies
      that succeed, in order. */
  lemma {:induction false} ScopesRepeat(u: Uow, bodies: seq<seq<Statement>>, faults: seq<Faults>)
    requires |faults| == |bodies| && AtRest(u) && Idle(u)
    requires forall i :: 0 <= i < |faults| ==> Committing(faults[i])
    ensures Idle(Scopes(u, bodies, faults))
    ensures Scopes(u, bodies, faults).committed == Serially(u.committed, bodies)
    decreases |bodies|
  {
    if bodies != [] {
      assert Committing(faults[0]);
      ScopeIsAtomic(u, bodies[0], faults[0]);
      WhenScopesRepeat(u, bodies[0], faults[0]);
      ScopesRepeat(Scope(u, bodies[0], faults[0]).0, bodies[1..], faults[1..]);
    }
  }

  function Serially(tables: Tables, bodies: seq<seq<Statement>>): Tables
    decreases |bodies|
  {
    if bodies == [] then tables
    else
      var next := match ExecuteAll(tables, bodies[0]) case Ok(written) => written case Err(_) => tables;
      Serially(next, bodies[1..])
  }
}
