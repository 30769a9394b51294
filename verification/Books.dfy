/** The book table: soft delete, a unique index over live rows only, and the statements of the book
    storage with the guards of the book service, as functions on the table. */
module Books {
  import opened Prelude

  /** Ids come from a fresh supply. */
  type BookId = nat

  /** A 32-bit integer column. */
  type Year = y: int | -0x8000_0000 <= y < 0x8000_0000

  const WIDTH: nat := 255

  datatype Error =
    | NotFound
    | AlreadyExists
    | IntegrityError      // a constraint violation the storage does not translate
    | UnknownError        // one it translates without knowing the constraint
    | DataError           // a value the column cannot hold
    | NoSession
    | AlreadyInTransaction
    | AbortedTransaction  // an earlier statement was refused and the transaction not yet rolled back
    | InvalidCredentials
    | SearchFailed
    | Interrupted         // a failure of the database or a cancellation

  datatype CreateBook = CreateBook(title: Str, year: Year, author: Str)

  datatype Content = Content(title: Str, year: Year, author: Str)

  datatype Row = Row(content: Content, deletedAt: Option<nat>)

  datatype Table = Table(rows: map<BookId, Row>, next: BookId)

  // ---- reading ----

  predicate IsLive(t: Table, id: BookId) {
    id in t.rows && t.rows[id].deletedAt.None?
  }

  function LiveIds(t: Table): set<BookId> {
    set id | id in t.rows && t.rows[id].deletedAt.None?
  }

  /** What every read of the storage can see. */
  function View(t: Table): map<BookId, Content> {
    map id | id in t.rows && t.rows[id].deletedAt.None? :: t.rows[id].content
  }

  /** The entries of the partial unique index. */
  function LiveKeys(t: Table): set<Content> {
    set id | id in t.rows && t.rows[id].deletedAt.None? :: t.rows[id].content
  }

  ghost predicate Valid(t: Table) {
    && (forall id :: id in t.rows ==> id < t.next && Fits(t.rows[id].content))
    && (forall a, b :: IsLive(t, a) && IsLive(t, b) && t.rows[a].content == t.rows[b].content ==> a == b)
  }

  predicate Fits(c: Content) {
    |c.title| <= WIDTH && |c.author| <= WIDTH
  }

  // ---- inserting ----

  function Truncate(s: Str): (r: Str)
    ensures r <= s && |r| == if |s| < WIDTH then |s| else WIDTH
  {
    if |s| <= WIDTH then s else s[..WIDTH]
  }

  function Stored(b: CreateBook): (c: Content)
    ensures Fits(c) && c.year == b.year && c.title <= b.title && c.author <= b.author
    ensures |c.title| == (if |b.title| < WIDTH then |b.title| else WIDTH)
    ensures |c.author| == (if |b.author| < WIDTH then |b.author| else WIDTH)
  {
    Content(Truncate(b.title), b.year, Truncate(b.author))
  }

  function Append(t: Table, c: Content): Table {
    Table(t.rows[t.next := Row(c, None)], t.next + 1)
  }

  function Create(t: Table, b: CreateBook): Result<Table, Error> {
    if Stored(b) in LiveKeys(t) then Err(AlreadyExists) else Ok(Append(t, Stored(b)))
  }

  /** One row of INSERT ... ON CONFLICT DO NOTHING; its id is drawn either way. */
  function InsertIfAbsent(t: Table, c: Content): Table {
    if c in LiveKeys(t) then t.(next := t.next + 1) else Append(t, c)
  }

  function SaveAll(t: Table, books: seq<CreateBook>): Table
    decreases |books|
  {
    if books == [] then t else SaveAll(InsertIfAbsent(t, Stored(books[0])), books[1..])
  }

  /** The bulk statement; with no rows it would insert one row of NULLs, which the table refuses. */
  function SaveBulk(t: Table, books: seq<CreateBook>): Result<Table, Error> {
    if books == [] then Err(IntegrityError) else Ok(SaveAll(t, books))
  }

  // ---- deleting and updating ----

  /** The statement itself stamps any row with this id, live or not. */
  function MarkDeleted(t: Table, id: BookId, now: nat): Table {
    if id in t.rows then t.(rows := t.rows[id := t.rows[id].(deletedAt := Some(now))]) else t
  }

  /** A field of an update: left out, an explicit null, or a value. */
  datatype Field<+T> = Unset | Null | Set(value: T)

  datatype UpdateBook = UpdateBook(id: BookId, title: Field<Str>, year: Field<Year>, author: Field<Str>)

  datatype Column = TitleColumn | YearColumn | AuthorColumn

  datatype Cell = NullCell | Text(text: Str) | Number(number: Year)

  /** Text for a VARCHAR(255) column: too long is refused unless only spaces are cut off. */
  function FitText(s: Str): Option<Str> {
    if |s| <= WIDTH then Some(s)
    else if forall i :: WIDTH <= i < |s| ==> s[i] == 32 then Some(s[..WIDTH])
    else None
  }

  function NewText(previous: Str, values: map<Column, Cell>, column: Column): Option<Str> {
    if column in values && values[column].Text? then FitText(values[column].text) else Some(previous)
  }

  function NewYear(previous: Year, values: map<Column, Cell>): Year {
    if YearColumn in values && values[YearColumn].Number? then values[YearColumn].number else previous
  }

  /** The content with the values that are not null. */
  function Assign(c: Content, values: map<Column, Cell>): Option<Content> {
    var title := NewText(c.title, values, TitleColumn);
    var author := NewText(c.author, values, AuthorColumn);
    if title.None? || author.None? then None
    else Some(Content(title.value, NewYear(c.year, values), author.value))
  }

  /** The keyword values of the UPDATE statement. */
  function ToDict(u: UpdateBook): map<Column, Cell> {
    (if u.title.Unset? then map[] else map[TitleColumn := TextCell(u.title)]) +
    (if u.year.Unset? then map[] else map[YearColumn := NumberCell(u.year)]) +
    (if u.author.Unset? then map[] else map[AuthorColumn := TextCell(u.author)])
  }

  function TextCell(f: Field<Str>): Cell {
    if f.Set? then Text(f.value) else NullCell
  }

  function NumberCell(f: Field<Year>): Cell {
    if f.Set? then Number(f.value) else NullCell
  }

  predicate SetsNull(values: map<Column, Cell>) {
    exists column :: column in values && values[column].NullCell?
  }

  predicate Taken(t: Table, id: BookId, c: Content) {
    exists other :: other in t.rows && other != id && t.rows[other].deletedAt.None? && t.rows[other].content == c
  }

  /** The update statement picks its row by id and does not look at the deletion mark; the index does. */
  function SetValues(t: Table, id: BookId, values: map<Column, Cell>): Result<Table, Error> {
    if id !in t.rows then Err(NotFound)
    else
      var content := Assign(t.rows[id].content, values);
      if content.None? then Err(DataError)
      else if SetsNull(values) then Err(UnknownError)
      else if t.rows[id].deletedAt.None? && Taken(t, id, content.value) then Err(AlreadyExists)
      else Ok(t.(rows := t.rows[id := t.rows[id].(content := content.value)]))
  }

  // ---- the service: existence is checked first ----

  function Delete(t: Table, id: BookId, now: nat): Result<Table, Error> {
    if !IsLive(t, id) then Err(NotFound) else Ok(MarkDeleted(t, id, now))
  }

  function Update(t: Table, u: UpdateBook): Result<Table, Error> {
    if !IsLive(t, u.id) then Err(NotFound) else SetValues(t, u.id, ToDict(u))
  }

  datatype Op =
    | CreateOp(book: CreateBook)
    | DeleteOp(id: BookId, now: nat)
    | UpdateOp(update: UpdateBook)
    | SaveBulkOp(books: seq<CreateBook>)

  function Apply(t: Table, op: Op): Result<Table, Error> {
    match op
    case CreateOp(b) => Create(t, b)
    case DeleteOp(id, now) => Delete(t, id, now)
    case UpdateOp(u) => Update(t, u)
    case SaveBulkOp(books) => SaveBulk(t, books)
  }

  /** One use case in its own transaction: a failure leaves the committed table as it was. */
  function Serve(t: Table, op: Op): Table {
    match Apply(t, op)
    case Ok(u) => u
    case Err(_) => t
  }

  function History(t: Table, ops: seq<Op>): Table {
    if ops == [] then t else Serve(History(t, ops[..|ops| - 1]), ops[|ops| - 1])
  }
}
