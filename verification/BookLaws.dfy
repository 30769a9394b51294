/** What the book table keeps, over single statements and over whole histories. */
module BookLaws {
  import opened Prelude
  import opened Books

  /** Rows of `s` are still in `t`; those deleted in `s` are untouched. */
  ghost predicate KeepsRows(s: Table, t: Table) {
    && s.next <= t.next
    && (forall id :: id in s.rows ==> id in t.rows)
    && (forall id :: id in s.rows && s.rows[id].deletedAt.Some? ==> t.rows[id] == s.rows[id])
    && (forall id :: id in t.rows && id !in s.rows ==> s.next <= id)
  }

  function Contents(books: seq<CreateBook>): set<Content> {
    set i | 0 <= i < |books| :: Stored(books[i])
  }

  // ---- bulk insert ----

  lemma AppendKeeps(t: Table, c: Content)
    requires Valid(t) && Fits(c) && c !in LiveKeys(t)
    ensures Valid(Append(t, c)) && LiveKeys(Append(t, c)) == LiveKeys(t) + {c}
    ensures forall id :: id in t.rows ==> id in Append(t, c).rows && Append(t, c).rows[id] == t.rows[id]
    ensures View(Append(t, c)) == View(t)[t.next := c]
  {
    var u := Append(t, c);
    assert IsLive(u, t.next);
    forall k | k in LiveKeys(t) ensures k in LiveKeys(u) {
      var id :| id in t.rows && t.rows[id].deletedAt.None? && t.rows[id].content == k;
      assert IsLive(u, id) && u.rows[id].content == k;
    }
    forall k | k in LiveKeys(u) ensures k in LiveKeys(t) + {c} {
      var id :| id in u.rows && u.rows[id].deletedAt.None? && u.rows[id].content == k;
      assert id == t.next || IsLive(t, id);
    }
    forall id | IsLive(t, id) ensures u.rows[id].content in LiveKeys(t) {}
  }

  lemma AbsentKeeps(t: Table, c: Content)
    requires Valid(t) && Fits(c)
    ensures Valid(InsertIfAbsent(t, c)) && LiveKeys(InsertIfAbsent(t, c)) == LiveKeys(t) + {c}
    ensures forall id :: id in t.rows ==> id in InsertIfAbsent(t, c).rows && InsertIfAbsent(t, c).rows[id] == t.rows[id]
  {
    if c !in LiveKeys(t) {
      AppendKeeps(t, c);
    } else {
      var u := InsertIfAbsent(t, c);
      assert u.rows == t.rows;
    }
  }

  lemma ContentsCons(books: seq<CreateBook>)
    requires books != []
    ensures Contents(books) == {Stored(books[0])} + Contents(books[1..])
  {
    forall c | c in Contents(books) ensures c in {Stored(books[0])} + Contents(books[1..]) {
      var i :| 0 <= i < |books| && Stored(books[i]) == c;
      if i > 0 { assert books[1..][i - 1] == books[i]; }
    }
    forall c | c in Contents(books[1..]) ensures c in Contents(books) {
      var i :| 0 <= i < |books[1..]| && Stored(books[1..][i]) == c;
      assert books[i + 1] == books[1..][i];
    }
  }

  /** A bulk insert adds exactly the truncated keys it brings and changes no existing row. */
  lemma {:induction false} SaveAllAdds(t: Table, books: seq<CreateBook>)
    requires Valid(t)
    ensures Valid(SaveAll(t, books))
    ensures LiveKeys(SaveAll(t, books)) == LiveKeys(t) + Contents(books)
    ensures forall id :: id in t.rows ==> id in SaveAll(t, books).rows && SaveAll(t, books).rows[id] == t.rows[id]
    ensures forall id :: id in SaveAll(t, books).rows && id !in t.rows ==>
              t.next <= id && SaveAll(t, books).rows[id].deletedAt.None?
    ensures t.next <= SaveAll(t, books).next
    decreases |books|
  {
    if books != [] {
      var first := InsertIfAbsent(t, Stored(books[0]));
      AbsentKeeps(t, Stored(books[0]));
      SaveAllAdds(first, books[1..]);
      ContentsCons(books);
      assert LiveKeys(SaveAll(t, books)) == LiveKeys(t) + {Stored(books[0])} + Contents(books[1..]);
    }
  }

  /** Books whose keys are all live already add nothing. */
  lemma {:induction false} SaveAllAgain(t: Table, books: seq<CreateBook>)
    requires Contents(books) <= LiveKeys(t)
    ensures SaveAll(t, books).rows == t.rows
    decreases |books|
  {
    if books != [] {
      assert Stored(books[0]) in Contents(books);
      var u := InsertIfAbsent(t, Stored(books[0]));
      forall c | c in Contents(books[1..]) ensures c in LiveKeys(u) {
        var i :| 0 <= i < |books[1..]| && Stored(books[1..][i]) == c;
        assert Stored(books[i + 1]) in Contents(books);
        assert LiveKeys(u) == LiveKeys(t);
      }
      SaveAllAgain(u, books[1..]);
    }
  }

  lemma {:induction false} SaveAllConcat(t: Table, a: seq<CreateBook>, b: seq<CreateBook>)
    ensures SaveAll(t, a + b) == SaveAll(SaveAll(t, a), b)
    decreases |a|
  {
    if a == [] {
      assert a + b == b;
    } else {
      SaveAllConcat(InsertIfAbsent(t, Stored(a[0])), a[1..], b);
      assert (a + b)[0] == a[0] && (a + b)[1..] == a[1..] + b;
    }
  }

  lemma NewKeys(c: Content, rest: set<Content>, live: set<Content>)
    ensures |({c} + rest) - live| == |rest - (live + {c})| + if c in live then 0 else 1
  {
    if c in live {
      assert ({c} + rest) - live == rest - (live + {c});
    } else {
      assert ({c} + rest) - live == (rest - (live + {c})) + {c};
    }
  }

  /** How many rows a bulk insert adds. */
  lemma {:induction false} SaveAllCounts(t: Table, books: seq<CreateBook>)
    requires Valid(t)
    ensures |SaveAll(t, books).rows| == |t.rows| + |Contents(books) - LiveKeys(t)|
    decreases |books|
  {
    if books == [] {
      assert Contents(books) - LiveKeys(t) == {};
    } else {
      var c := Stored(books[0]);
      var u := InsertIfAbsent(t, c);
      AbsentKeeps(t, c);
      SaveAllCounts(u, books[1..]);
      ContentsCons(books);
      NewKeys(c, Contents(books[1..]), LiveKeys(t));
      if c !in LiveKeys(t) {
        AppendCounts(t, c);
      }
    }
  }

  // ---- every operation ----

  lemma MarkKeeps(t: Table, id: BookId, now: nat)
    requires Valid(t) && IsLive(t, id)
    ensures Valid(MarkDeleted(t, id, now)) && KeepsRows(t, MarkDeleted(t, id, now))
    ensures View(MarkDeleted(t, id, now)) == View(t) - {id}
  {
    MarkValid(t, id, now);
    var u := MarkDeleted(t, id, now);
    assert forall a :: a in View(u) <==> a in View(t) && a != id;
  }

  lemma MarkValid(t: Table, id: BookId, now: nat)
    requires Valid(t) && IsLive(t, id)
    ensures Valid(MarkDeleted(t, id, now)) && KeepsRows(t, MarkDeleted(t, id, now))
  {
    var u := MarkDeleted(t, id, now);
    assert forall a :: IsLive(u, a) ==> IsLive(t, a) && u.rows[a] == t.rows[a];
  }

  lemma AssignFits(c: Content, values: map<Column, Cell>)
    requires Fits(c) && Assign(c, values).Some?
    ensures Fits(Assign(c, values).value)
  {
  }

  lemma SetKeeps(t: Table, id: BookId, values: map<Column, Cell>)
    requires Valid(t) && IsLive(t, id) && SetValues(t, id, values).Ok?
    ensures
      var u := SetValues(t, id, values).value;
      && Valid(u) && KeepsRows(t, u) && u.next == t.next && u.rows.Keys == t.rows.Keys
      && View(u) == View(t)[id := Assign(t.rows[id].content, values).value]
  {
    var u := SetValues(t, id, values).value;
    AssignFits(t.rows[id].content, values);
    forall a, b | IsLive(u, a) && IsLive(u, b) && u.rows[a].content == u.rows[b].content ensures a == b {
      assert IsLive(t, a) && IsLive(t, b);
    }
  }

  lemma ServeKeeps(t: Table, op: Op)
    requires Valid(t)
    ensures Valid(Serve(t, op)) && KeepsRows(t, Serve(t, op))
  {
    match op
    case CreateOp(b) => if Apply(t, op).Ok? { AppendKeeps(t, Stored(b)); }
    case DeleteOp(id, now) => if Apply(t, op).Ok? { MarkKeeps(t, id, now); }
    case UpdateOp(u) => if Apply(t, op).Ok? { SetKeeps(t, u.id, ToDict(u)); }
    case SaveBulkOp(books) => SaveAllAdds(t, books);
  }

  lemma KeepsRowsTransitive(s: Table, t: Table, u: Table)
    requires KeepsRows(s, t) && KeepsRows(t, u)
    ensures KeepsRows(s, u)
  {
  }

  /** Over every serial history no two live books share title, year and author; rows never vanish;
      deleted rows never change. */
  lemma {:induction false} HistoryKeeps(t: Table, ops: seq<Op>)
    requires Valid(t)
    ensures Valid(History(t, ops)) && KeepsRows(t, History(t, ops))
  {
    if ops != [] {
      var u := History(t, ops[..|ops| - 1]);
      HistoryKeeps(t, ops[..|ops| - 1]);
      ServeKeeps(u, ops[|ops| - 1]);
      KeepsRowsTransitive(t, u, History(t, ops));
    }
  }

  /** The successful inserts of one operation. */
  function Inserted(t: Table, op: Op): nat {
    if Apply(t, op).Err? then 0 else
    match op
    case CreateOp(_) => 1
    case SaveBulkOp(books) => |Contents(books) - LiveKeys(t)|
    case _ => 0
  }

  function InsertedOver(t: Table, ops: seq<Op>): nat {
    if ops == [] then 0
    else InsertedOver(t, ops[..|ops| - 1]) + Inserted(History(t, ops[..|ops| - 1]), ops[|ops| - 1])
  }

  function DeletedIds(t: Table): set<BookId> {
    set id | id in t.rows && t.rows[id].deletedAt.Some?
  }

  lemma ServeCounts(t: Table, op: Op)
    requires Valid(t)
    ensures |Serve(t, op).rows| == |t.rows| + Inserted(t, op)
  {
    match op
    case CreateOp(b) => CreateCounts(t, b);
    case DeleteOp(id, now) => DeleteCounts(t, id, now);
    case UpdateOp(u) => UpdateCounts(t, u);
    case SaveBulkOp(books) => if books != [] { SaveAllCounts(t, books); }
  }

  lemma CreateCounts(t: Table, b: CreateBook)
    requires Valid(t)
    ensures Create(t, b).Ok? ==> |Create(t, b).value.rows| == |t.rows| + 1
  {
    AppendCounts(t, Stored(b));
  }

  lemma AppendCounts(t: Table, c: Content)
    requires Valid(t)
    ensures |Append(t, c).rows| == |t.rows| + 1
  {
    assert t.next !in t.rows;
    assert Append(t, c).rows.Keys == t.rows.Keys + {t.next};
    assert |Append(t, c).rows.Keys| == |t.rows.Keys| + 1;
  }

  lemma DeleteCounts(t: Table, id: BookId, now: nat)
    ensures Delete(t, id, now).Ok? ==> |Delete(t, id, now).value.rows| == |t.rows|
  {
    if Delete(t, id, now).Ok? { SameKeysCount(t.rows, MarkDeleted(t, id, now).rows); }
  }

  lemma UpdateCounts(t: Table, u: UpdateBook)
    ensures Update(t, u).Ok? ==> |Update(t, u).value.rows| == |t.rows|
  {
    if Update(t, u).Ok? { SameKeysCount(t.rows, Update(t, u).value.rows); }
  }

  lemma SameKeysCount(a: map<BookId, Row>, b: map<BookId, Row>)
    requires a.Keys == b.Keys
    ensures |a| == |b|
  {
    assert |a.Keys| == |a| && |b.Keys| == |b|;
  }

  /** Live rows and deleted rows together are the successful inserts: no row is lost or invented. */
  lemma {:induction false} RowsConserved(t: Table, ops: seq<Op>)
    requires Valid(t)
    ensures |LiveIds(History(t, ops))| + |DeletedIds(History(t, ops))| == |t.rows| + InsertedOver(t, ops)
  {
    var u := History(t, ops);
    HistoryCounts(t, ops);
    assert LiveIds(u) + DeletedIds(u) == u.rows.Keys;
    assert LiveIds(u) !! DeletedIds(u);
    assert |LiveIds(u) + DeletedIds(u)| == |LiveIds(u)| + |DeletedIds(u)|;
    assert |u.rows.Keys| == |u.rows|;
  }

  lemma {:induction false} HistoryCounts(t: Table, ops: seq<Op>)
    requires Valid(t)
    ensures |History(t, ops).rows| == |t.rows| + InsertedOver(t, ops)
  {
    if ops != [] {
      HistoryCounts(t, ops[..|ops| - 1]);
      HistoryKeeps(t, ops[..|ops| - 1]);
      ServeCounts(History(t, ops[..|ops| - 1]), ops[|ops| - 1]);
    }
  }

  // ---- soft delete refines removal ----

  /** The same service over a table from which deleted books are really removed. */
  datatype Shelf = Shelf(books: map<BookId, Content>, next: BookId)

  function ShelfOf(t: Table): Shelf {
    Shelf(View(t), t.next)
  }

  predicate OnShelf(s: Shelf, c: Content, except: Option<BookId>) {
    exists id :: id in s.books && Some(id) != except && s.books[id] == c
  }

  function ShelfAdd(s: Shelf, c: Content): Shelf {
    if OnShelf(s, c, None) then s.(next := s.next + 1) else Shelf(s.books[s.next := c], s.next + 1)
  }

  function ShelfAddAll(s: Shelf, books: seq<CreateBook>): Shelf
    decreases |books|
  {
    if books == [] then s else ShelfAddAll(ShelfAdd(s, Stored(books[0])), books[1..])
  }

  function ShelfApply(s: Shelf, op: Op): Result<Shelf, Error> {
    match op
    case CreateOp(b) => if OnShelf(s, Stored(b), None) then Err(AlreadyExists) else Ok(ShelfAdd(s, Stored(b)))
    case DeleteOp(id, _) => if id in s.books then Ok(s.(books := s.books - {id})) else Err(NotFound)
    case UpdateOp(u) =>
      if u.id !in s.books then Err(NotFound)
      else
        var content := Assign(s.books[u.id], ToDict(u));
        if content.None? then Err(DataError)
        else if SetsNull(ToDict(u)) then Err(UnknownError)
        else if OnShelf(s, content.value, Some(u.id)) then Err(AlreadyExists)
        else Ok(s.(books := s.books[u.id := content.value]))
    case SaveBulkOp(books) => if books == [] then Err(IntegrityError) else Ok(ShelfAddAll(s, books))
  }

  lemma SameIndex(t: Table, c: Content)
    ensures OnShelf(ShelfOf(t), c, None) <==> c in LiveKeys(t)
  {
    if c in LiveKeys(t) {
      var id :| id in t.rows && t.rows[id].deletedAt.None? && t.rows[id].content == c;
      assert id in View(t) && View(t)[id] == c;
    }
    if OnShelf(ShelfOf(t), c, None) {
      var id :| id in View(t) && View(t)[id] == c;
      assert IsLive(t, id) && t.rows[id].content == c;
    }
  }

  lemma SameTaken(t: Table, id: BookId, c: Content)
    ensures OnShelf(ShelfOf(t), c, Some(id)) <==> Taken(t, id, c)
  {
    if Taken(t, id, c) {
      var other :| other in t.rows && other != id && t.rows[other].deletedAt.None? && t.rows[other].content == c;
      assert other in View(t) && Some(other) != Some(id);
    }
  }

  lemma {:induction false} AddAllRefines(t: Table, books: seq<CreateBook>)
    requires Valid(t)
    ensures ShelfOf(SaveAll(t, books)) == ShelfAddAll(ShelfOf(t), books)
    decreases |books|
  {
    if books != [] {
      var c := Stored(books[0]);
      SameIndex(t, c);
      AbsentKeeps(t, c);
      if c !in LiveKeys(t) { AppendKeeps(t, c); }
      assert ShelfOf(InsertIfAbsent(t, c)) == ShelfAdd(ShelfOf(t), c);
      AddAllRefines(InsertIfAbsent(t, c), books[1..]);
    }
  }

  /** An operation on the soft-delete table answers and changes what can be read exactly as on a
      table that removes deleted books. */
  lemma SoftDeleteRefinesRemoval(t: Table, op: Op)
    requires Valid(t)
    ensures match Apply(t, op)
            case Ok(u) => ShelfApply(ShelfOf(t), op) == Ok(ShelfOf(u))
            case Err(error) => ShelfApply(ShelfOf(t), op) == Err(error)
  {
    match op
    case CreateOp(b) =>
      SameIndex(t, Stored(b));
      if Apply(t, op).Ok? { AppendKeeps(t, Stored(b)); }
    case DeleteOp(id, now) => if Apply(t, op).Ok? { MarkKeeps(t, id, now); }
    case UpdateOp(u) =>
      if IsLive(t, u.id) {
        assert View(t)[u.id] == t.rows[u.id].content;
        var content := Assign(t.rows[u.id].content, ToDict(u));
        if content.Some? { SameTaken(t, u.id, content.value); }
        if Apply(t, op).Ok? { SetKeeps(t, u.id, ToDict(u)); }
      }
    case SaveBulkOp(books) => AddAllRefines(t, books);
  }

  function ShelfHistory(s: Shelf, ops: seq<Op>): Shelf {
    if ops == [] then s
    else
      var before := ShelfHistory(s, ops[..|ops| - 1]);
      match ShelfApply(before, ops[|ops| - 1]) case Ok(after) => after case Err(_) => before
  }

  /** So over any serial history nothing that can be read tells soft deletion from removal. */
  lemma {:induction false} HistoryRefinesRemoval(t: Table, ops: seq<Op>)
    requires Valid(t)
    ensures ShelfOf(History(t, ops)) == ShelfHistory(ShelfOf(t), ops)
  {
    if ops != [] {
      HistoryRefinesRemoval(t, ops[..|ops| - 1]);
      HistoryKeeps(t, ops[..|ops| - 1]);
      SoftDeleteRefinesRemoval(History(t, ops[..|ops| - 1]), ops[|ops| - 1]);
    }
  }

  // ---- the statements by themselves, without the guards ----

  /** The update statement misses only a row that is not there, live or deleted; a deleted row cannot
      clash; and it touches the content of its row alone. */
  lemma UpdateStatement(t: Table, id: BookId, values: map<Column, Cell>)
    ensures SetValues(t, id, values) == Err(NotFound) <==> id !in t.rows
    ensures id in t.rows && t.rows[id].deletedAt.Some? ==> SetValues(t, id, values) != Err(AlreadyExists)
    ensures SetValues(t, id, values).Ok? ==>
      var after := SetValues(t, id, values).value;
      && after.next == t.next && after.rows.Keys == t.rows.Keys
      && after.rows[id].deletedAt == t.rows[id].deletedAt
      && forall other :: other in t.rows && other != id ==> after.rows[other] == t.rows[other]
  {
  }

  /** The delete statement stamps its row, live or deleted, if there is one, and nothing else. */
  lemma DeleteStatement(t: Table, id: BookId, now: nat)
    ensures
      var after := MarkDeleted(t, id, now);
      && after.next == t.next && after.rows.Keys == t.rows.Keys
      && (forall other :: other in t.rows && other != id ==> after.rows[other] == t.rows[other])
      && (id in t.rows ==> after.rows[id] == Row(t.rows[id].content, Some(now)))
  {
  }

  // ---- creating ----

  /** Creation succeeds exactly when no live book has the truncated content; then it adds one live row
      with it under a new id and changes no other. */
  lemma CreateExactly(t: Table, b: CreateBook)
    requires Valid(t)
    ensures Create(t, b).Ok? <==> forall id :: IsLive(t, id) ==> t.rows[id].content != Stored(b)
    ensures Create(t, b).Err? ==> Create(t, b) == Err(AlreadyExists)
    ensures Create(t, b).Ok? ==>
      var after := Create(t, b).value;
      && t.next !in t.rows && after.rows == t.rows[t.next := Row(Stored(b), None)] && t.next < after.next
  {
    SameIndex(t, Stored(b));
    assert Stored(b) in LiveKeys(t) <==> exists id :: IsLive(t, id) && t.rows[id].content == Stored(b);
  }

  /** What a column of 255 characters takes: any text that is no longer but for spaces, cut off there. */
  lemma FitTextExactly(s: Str)
    ensures FitText(s).Some? <==> forall i :: WIDTH <= i < |s| ==> s[i] == 32
    ensures FitText(s).Some? ==>
      FitText(s).value <= s && |FitText(s).value| == if |s| < WIDTH then |s| else WIDTH
  {
  }

  // ---- delete, then create again ----

  /** The key of a deleted book can be used again; the new book has a new id and the deleted row
      stays as it is. */
  lemma DeleteThenCreate(t: Table, id: BookId, now: nat, b: CreateBook)
    requires Valid(t) && IsLive(t, id) && t.rows[id].content == Stored(b)
    ensures
      var deleted := Serve(t, DeleteOp(id, now));
      && Create(t, b) == Err(AlreadyExists)
      && Create(deleted, b).Ok?
      && var again := Create(deleted, b).value;
      && deleted.next != id && IsLive(again, deleted.next) && again.rows[deleted.next].content == Stored(b)
      && id in again.rows && again.rows[id] == Row(Stored(b), Some(now))
      && View(again) == (View(t) - {id})[t.next := Stored(b)]
  {
    var deleted := MarkDeleted(t, id, now);
    MarkKeeps(t, id, now);
    assert t.rows[id].content in LiveKeys(t);
    forall other | IsLive(deleted, other) ensures IsLive(t, other) && other != id {}
    AppendKeeps(deleted, Stored(b));
  }

  // ---- partial update ----

  function OrElse<T>(later: Field<T>, earlier: Field<T>): Field<T> {
    if later.Unset? then earlier else later
  }

  function Merge(a: UpdateBook, b: UpdateBook): UpdateBook {
    UpdateBook(b.id, OrElse(b.title, a.title), OrElse(b.year, a.year), OrElse(b.author, a.author))
  }

  predicate SomeNull(u: UpdateBook) {
    u.title.Null? || u.year.Null? || u.author.Null?
  }

  lemma NullsInDict(u: UpdateBook)
    ensures SetsNull(ToDict(u)) <==> SomeNull(u)
  {
    var values := ToDict(u);
    if u.title.Null? { assert TitleColumn in values && values[TitleColumn].NullCell?; }
    if u.year.Null? { assert YearColumn in values && values[YearColumn].NullCell?; }
    if u.author.Null? { assert AuthorColumn in values && values[AuthorColumn].NullCell?; }
  }

  function TextAfter(field: Field<Str>, previous: Str): Option<Str> {
    if field.Set? then FitText(field.value) else Some(previous)
  }

  /** The values of an update, read field by field. */
  lemma AssignedFields(c: Content, u: UpdateBook)
    ensures
      var title, author := TextAfter(u.title, c.title), TextAfter(u.author, c.author);
      Assign(c, ToDict(u)) ==
        if title.None? || author.None? then None
        else Some(Content(title.value, if u.year.Set? then u.year.value else c.year, author.value))
  {
  }

  /** Two assignments without nulls are one, the later fields winning. */
  lemma MergedContent(c: Content, a: UpdateBook, b: UpdateBook)
    requires !SomeNull(a) && !SomeNull(b)
    requires Assign(c, ToDict(a)).Some? && Assign(Assign(c, ToDict(a)).value, ToDict(b)).Some?
    ensures Assign(c, ToDict(Merge(a, b))) == Assign(Assign(c, ToDict(a)).value, ToDict(b))
  {
    AssignedFields(c, a);
    AssignedFields(Assign(c, ToDict(a)).value, b);
    AssignedFields(c, Merge(a, b));
  }

  lemma TakenElsewhere(t: Table, u: Table, id: BookId, c: Content)
    requires forall other :: other in t.rows && other != id ==> other in u.rows && u.rows[other] == t.rows[other]
    requires Taken(t, id, c)
    ensures Taken(u, id, c)
  {
    var other :| other in t.rows && other != id && t.rows[other].deletedAt.None? && t.rows[other].content == c;
    assert other in u.rows && u.rows[other] == t.rows[other];
  }

  /** What a successful update has found and what it leaves. */
  lemma Updated(t: Table, u: UpdateBook)
    requires Update(t, u).Ok?
    ensures IsLive(t, u.id) && !SomeNull(u)
    ensures
      var content := Assign(t.rows[u.id].content, ToDict(u));
      && content.Some? && !Taken(t, u.id, content.value)
      && Update(t, u).value == t.(rows := t.rows[u.id := Row(content.value, None)])
  {
    NullsInDict(u);
  }

  /** Two successful updates of one book are one update with the later fields winning. */
  lemma UpdateTwice(t: Table, a: UpdateBook, b: UpdateBook)
    requires Valid(t) && a.id == b.id && Update(t, a).Ok? && Update(Update(t, a).value, b).Ok?
    ensures Update(t, Merge(a, b)) == Update(Update(t, a).value, b)
  {
    var u := Update(t, a).value;
    Updated(t, a);
    Updated(u, b);
    MergedContent(t.rows[a.id].content, a, b);
    NullsInDict(Merge(a, b));
    var merged := Assign(u.rows[a.id].content, ToDict(b)).value;
    if Taken(t, a.id, merged) { TakenElsewhere(t, u, a.id, merged); }
    assert t.rows[a.id := Row(merged, None)] == u.rows[a.id := Row(merged, None)];
  }

  /** An update changes only the fields that are set, of only the live book it names; when it fails
      it changes nothing. */
  lemma UpdateIsLocal(t: Table, u: UpdateBook)
    requires Valid(t)
    ensures
      var after := Serve(t, UpdateOp(u));
      && after.rows.Keys == t.rows.Keys && after.next == t.next
      && (forall id :: id in t.rows && (id != u.id || !IsLive(t, id)) ==> after.rows[id] == t.rows[id])
      && (IsLive(t, u.id) ==>
            && IsLive(after, u.id)
            && (u.title.Unset? ==> after.rows[u.id].content.title == t.rows[u.id].content.title)
            && (u.year.Unset? ==> after.rows[u.id].content.year == t.rows[u.id].content.year)
            && (u.author.Unset? ==> after.rows[u.id].content.author == t.rows[u.id].content.author))
    ensures Update(t, u).Ok? ==>
      var content := Serve(t, UpdateOp(u)).rows[u.id].content;
      && (u.title.Set? ==> Some(content.title) == FitText(u.title.value))
      && (u.year.Set? ==> content.year == u.year.value)
      && (u.author.Set? ==> Some(content.author) == FitText(u.author.value))
    ensures Update(t, u).Err? ==> Serve(t, UpdateOp(u)) == t
  {
  }

  predicate TextsFit(u: UpdateBook) {
    && (u.title.Set? ==> FitText(u.title.value).Some?)
    && (u.author.Set? ==> FitText(u.author.value).Some?)
  }

  /** Some other live book has the content the book would get. */
  ghost predicate SameElsewhere(t: Table, u: UpdateBook)
    requires u.id in t.rows
  {
    exists id :: IsLive(t, id) && id != u.id &&
                 Some(t.rows[id].content) == Assign(t.rows[u.id].content, ToDict(u))
  }

  /** When exactly an update succeeds, and which error it raises otherwise. */
  lemma UpdateSucceeds(t: Table, u: UpdateBook)
    ensures
      var r := Update(t, u);
      && (r.Ok? <==> IsLive(t, u.id) && TextsFit(u) && !SomeNull(u) && !SameElsewhere(t, u))
      && (r == Err(AlreadyExists) <==> IsLive(t, u.id) && TextsFit(u) && !SomeNull(u) && SameElsewhere(t, u))
      && (r == Err(UnknownError) <==> IsLive(t, u.id) && TextsFit(u) && SomeNull(u))
      && (r == Err(DataError) <==> IsLive(t, u.id) && !TextsFit(u))
      && (r == Err(NotFound) <==> !IsLive(t, u.id))
  {
    NullsInDict(u);
    if IsLive(t, u.id) && TextsFit(u) {
      var content := Assign(t.rows[u.id].content, ToDict(u));
      assert Taken(t, u.id, content.value) <==>
        exists id :: IsLive(t, id) && id != u.id && t.rows[id].content == content.value;
    }
  }

  /** A title of 256 letters is cut off by creation and refused by an update; a null is refused with
      the unknown error. */
  lemma LongTitleAndNull()
    ensures
      var long: Str := seq(256, i => 97);
      var t := Table(map[], 0);
      var book := CreateBook(long, 0, []);
      && Create(t, book).Ok?
      && Update(Create(t, book).value, UpdateBook(0, Set(long), Unset, Unset)) == Err(DataError)
      && Update(Create(t, book).value, UpdateBook(0, Null, Unset, Unset)) == Err(UnknownError)
  {
    var long: Str := seq(256, i => 97);
    var t := Create(Table(map[], 0), CreateBook(long, 0, [])).value;
    assert IsLive(t, 0);
    assert long[255] != 32;
    UpdateSucceeds(t, UpdateBook(0, Set(long), Unset, Unset));
    UpdateSucceeds(t, UpdateBook(0, Null, Unset, Unset));
  }
}
