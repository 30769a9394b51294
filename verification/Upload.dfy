/** Uploading: collect every query's books, bucket them, insert all buckets in one transaction; and
    what repeated deliveries of upload messages amount to. */
module Upload {
  import opened Prelude
  import opened Slices
  import opened Books
  import opened BookLaws
  import opened Search
  import opened UnitOfWork

  /** A query of a message, and how the client answers the searches made for it. */
  datatype Query = Query(text: Str, search: nat -> Answer)

  ghost predicate ServesAll(catalogue: Catalogue, queries: seq<Query>) {
    forall i :: 0 <= i < |queries| ==> Serves(queries[i].search, DocsOf(catalogue, queries[i].text))
  }

  /** What the page loop makes of a list of documents when no search fails. */
  function BooksOf(docs: seq<Doc>): seq<CreateBook> {
    ToCreateAll(Authored(ReadUpTo(docs, StopFrom(docs, 0) + 1)))
  }

  /** What the page loop gives for one query. */
  ghost function Collected(catalogue: Catalogue, query: Query): Result<seq<CreateBook>, Error> {
    var docs := DocsOf(catalogue, query.text);
    if FailsBy(query.search, StopFrom(docs, 0)) then Err(SearchFailed) else Ok(BooksOf(docs))
  }

  /** All queries of a message, in order; the first failing search ends it. */
  ghost function CollectAll(catalogue: Catalogue, queries: seq<Query>): Result<seq<CreateBook>, Error> {
    if queries == [] then Ok([])
    else
      var init := CollectAll(catalogue, queries[..|queries| - 1]);
      var last := Collected(catalogue, queries[|queries| - 1]);
      if init.Err? then init else if last.Err? then last else Ok(init.value + last.value)
  }

  function Texts(queries: seq<Query>): (texts: seq<Str>)
    ensures |texts| == |queries| && forall i :: 0 <= i < |queries| ==> texts[i] == queries[i].text
  {
    seq(|queries|, i requires 0 <= i < |queries| => queries[i].text)
  }

  /** The books of all queries when no search fails. */
  function AllBooks(catalogue: Catalogue, texts: seq<Str>): seq<CreateBook> {
    if texts == [] then []
    else AllBooks(catalogue, texts[..|texts| - 1]) + BooksOf(DocsOf(catalogue, texts[|texts| - 1]))
  }

  lemma CollectSnoc(catalogue: Catalogue, queries: seq<Query>, query: Query)
    ensures
      var init, last := CollectAll(catalogue, queries), Collected(catalogue, query);
      CollectAll(catalogue, queries + [query]) ==
        if init.Err? then init else if last.Err? then last else Ok(init.value + last.value)
  {
    assert (queries + [query])[..|queries|] == queries;
  }

  lemma AllBooksSnoc(catalogue: Catalogue, texts: seq<Str>, text: Str)
    ensures AllBooks(catalogue, texts + [text]) == AllBooks(catalogue, texts) + BooksOf(DocsOf(catalogue, text))
  {
    assert (texts + [text])[..|texts|] == texts;
  }

  ghost predicate AllOrNothing(catalogue: Catalogue, queries: seq<Query>) {
    || CollectAll(catalogue, queries) == Ok(AllBooks(catalogue, Texts(queries)))
    || CollectAll(catalogue, queries) == Err(SearchFailed)
  }

  lemma OneQueryMore(catalogue: Catalogue, queries: seq<Query>, query: Query)
    requires AllOrNothing(catalogue, queries)
    ensures AllOrNothing(catalogue, queries + [query])
  {
    CollectSnoc(catalogue, queries, query);
    AllBooksSnoc(catalogue, Texts(queries), query.text);
    assert Texts(queries + [query]) == Texts(queries) + [query.text];
  }

  lemma LastQuery(catalogue: Catalogue, queries: seq<Query>)
    requires queries != [] && AllOrNothing(catalogue, queries[..|queries| - 1])
    ensures AllOrNothing(catalogue, queries)
  {
    var init, last := queries[..|queries| - 1], queries[|queries| - 1];
    OneQueryMore(catalogue, init, last);
    assert init + [last] == queries;
  }

  /** A message is collected completely or not at all. */
  lemma {:induction false} CollectedIsAll(catalogue: Catalogue, queries: seq<Query>)
    ensures AllOrNothing(catalogue, queries)
  {
    if queries != [] {
      CollectedIsAll(catalogue, queries[..|queries| - 1]);
      LastQuery(catalogue, queries);
    }
  }

  /** A message fails to be collected exactly when some loop meets a failing search before it stops. */
  lemma {:induction false} CollectFails(catalogue: Catalogue, queries: seq<Query>)
    ensures CollectAll(catalogue, queries).Err? <==>
      exists i :: 0 <= i < |queries| && Collected(catalogue, queries[i]).Err?
  {
    if queries != [] {
      var n := |queries| - 1;
      CollectFails(catalogue, queries[..n]);
      assert forall i :: 0 <= i < n ==> queries[..n][i] == queries[i];
    }
  }

  function BooksOfEach(catalogue: Catalogue, texts: seq<Str>): (r: seq<seq<CreateBook>>)
    ensures |r| == |texts| && forall i :: 0 <= i < |texts| ==> r[i] == BooksOf(DocsOf(catalogue, texts[i]))
  {
    seq(|texts|, i requires 0 <= i < |texts| => BooksOf(DocsOf(catalogue, texts[i])))
  }

  lemma EachSnoc(catalogue: Catalogue, texts: seq<Str>, text: Str)
    ensures BooksOfEach(catalogue, texts + [text]) == BooksOfEach(catalogue, texts) + [BooksOf(DocsOf(catalogue, text))]
  {
  }

  ghost predicate OneAfterTheOther(catalogue: Catalogue, texts: seq<Str>) {
    AllBooks(catalogue, texts) == Flatten(BooksOfEach(catalogue, texts))
  }

  lemma OneTextMore(catalogue: Catalogue, texts: seq<Str>, text: Str)
    requires OneAfterTheOther(catalogue, texts)
    ensures OneAfterTheOther(catalogue, texts + [text])
  {
    AllBooksSnoc(catalogue, texts, text);
    EachSnoc(catalogue, texts, text);
    FlattenSnoc(BooksOfEach(catalogue, texts), BooksOf(DocsOf(catalogue, text)));
  }

  lemma LastText(catalogue: Catalogue, texts: seq<Str>)
    requires texts != [] && OneAfterTheOther(catalogue, texts[..|texts| - 1])
    ensures OneAfterTheOther(catalogue, texts)
  {
    var init, last := texts[..|texts| - 1], texts[|texts| - 1];
    OneTextMore(catalogue, init, last);
    assert init + [last] == texts;
  }

  /** The books of several queries are those of each, one after the other. */
  lemma {:induction false} AllBooksFlatten(catalogue: Catalogue, texts: seq<Str>)
    ensures OneAfterTheOther(catalogue, texts)
  {
    if texts != [] {
      AllBooksFlatten(catalogue, texts[..|texts| - 1]);
      LastText(catalogue, texts);
    }
  }

  /** One bulk statement for each bucket. */
  function SaveBody(buckets: seq<seq<CreateBook>>): (body: seq<Statement>)
    ensures |body| == |buckets|
    ensures forall i :: 0 <= i < |buckets| ==> body[i] == OnBooks(SaveBulkOp(buckets[i]))
  {
    seq(|buckets|, i requires 0 <= i < |buckets| => OnBooks(SaveBulkOp(buckets[i])))
  }

  lemma {:induction false} SaveEach(tables: Tables, buckets: seq<seq<CreateBook>>)
    requires forall i :: 0 <= i < |buckets| ==> buckets[i] != []
    ensures ExecuteAll(tables, SaveBody(buckets)) == Ok(tables.(books := SaveAll(tables.books, Flatten(buckets))))
    decreases |buckets|
  {
    if buckets != [] {
      var next := tables.(books := SaveAll(tables.books, buckets[0]));
      SaveEach(next, buckets[1..]);
      assert SaveBody(buckets)[1..] == SaveBody(buckets[1..]);
      SaveAllConcat(tables.books, buckets[0], Flatten(buckets[1..]));
    }
  }

  /** Saving bucket by bucket is inserting the whole list, whatever the bucket size: the same rows,
      the same ids, and never a statement without rows. */
  lemma BucketingIsTransparent(tables: Tables, books: seq<CreateBook>, size: nat)
    requires size > 0
    ensures ExecuteAll(tables, SaveBody(Buckets(books, size))) == Ok(tables.(books := SaveAll(tables.books, books)))
  {
    BucketsPartition(books, size);
    assert forall i :: 0 <= i < |Buckets(books, size)| ==> Buckets(books, size)[i] != [];
    SaveEach(tables, Buckets(books, size));
  }

  /** An upload leaves either nothing or every bucket, and users alone. */
  lemma UploadIsAtomic(u: Uow, books: seq<CreateBook>, faults: Faults)
    requires AtRest(u) && Valid(u.committed.books)
    ensures
      var (v, raised) := Scope(u, SaveBody(Buckets(books, BUCKET_SIZE)), faults);
      var saved := u.committed.(books := SaveAll(u.committed.books, books));
      && (v.committed == u.committed || v.committed == saved)
      && (raised.None? ==> v.committed == saved
                           && LiveKeys(v.committed.books) == LiveKeys(u.committed.books) + Contents(books))
  {
    BucketingIsTransparent(u.committed, books, BUCKET_SIZE);
    ScopeIsAtomic(u, SaveBody(Buckets(books, BUCKET_SIZE)), faults);
    SaveAllAdds(u.committed.books, books);
  }

  // ---- the keys an upload brings, document by document ----

  /** The key under which a document is stored. */
  function KeyOf(doc: Doc): Content
    requires doc.authorName.Some?
  {
    Stored(CreateBook(doc.title, 0, Join(COMMA, doc.authorName.value)))
  }

  /** The key of document j, which names its authors and is on a page the loop reads. */
  ghost predicate KeyOfDoc(docs: seq<Doc>, j: nat, key: Content) {
    && j < |docs| && j < BUCKET_SIZE * (StopFrom(docs, 0) + 1)
    && docs[j].authorName.Some? && key == KeyOf(docs[j])
  }

  ghost predicate KeyAmong(docs: seq<Doc>, key: Content) {
    exists j: nat :: KeyOfDoc(docs, j, key)
  }

  lemma FoundKey(doc: Doc, book: FoundBook)
    requires IsFoundAs(doc, book)
    ensures doc.authorName.Some? && Stored(ToCreate(book)) == KeyOf(doc)
  {
  }

  lemma KeysOfBooks(docs: seq<Doc>, key: Content)
    ensures key in Contents(BooksOf(docs)) <==> KeyAmong(docs, key)
  {
    var read := ReadUpTo(docs, StopFrom(docs, 0) + 1);
    var at := AuthoredAt(read);
    var books := BooksOf(docs);
    forall i | 0 <= i < |books| ensures at[i] < |docs| && KeyOfDoc(docs, at[i], Stored(books[i])) {
      assert at[i] in at && read[at[i]] == docs[at[i]];
      FoundKey(docs[at[i]], Authored(read)[i]);
    }
    if KeyAmong(docs, key) {
      var j: nat :| KeyOfDoc(docs, j, key);
      assert read[j] == docs[j] && j in at;
      var i :| 0 <= i < |at| && at[i] == j;
      assert Stored(books[i]) == key;
    }
  }

  lemma ContentsConcat(a: seq<CreateBook>, b: seq<CreateBook>)
    ensures Contents(a + b) == Contents(a) + Contents(b)
  {
    var all := a + b;
    forall key | key in Contents(a) ensures key in Contents(all) {
      var i :| 0 <= i < |a| && Stored(a[i]) == key;
      assert all[i] == a[i];
    }
    forall key | key in Contents(b) ensures key in Contents(all) {
      var i :| 0 <= i < |b| && Stored(b[i]) == key;
      assert all[|a| + i] == b[i];
    }
  }

  ghost predicate KeyOfMessage(catalogue: Catalogue, texts: seq<Str>, key: Content) {
    exists text :: text in texts && KeyAmong(DocsOf(catalogue, text), key)
  }

  lemma {:induction false} KeysOfMessage(catalogue: Catalogue, texts: seq<Str>, key: Content)
    ensures key in Contents(AllBooks(catalogue, texts)) <==> KeyOfMessage(catalogue, texts, key)
  {
    if texts != [] {
      var init, last := texts[..|texts| - 1], texts[|texts| - 1];
      KeysOfMessage(catalogue, init, key);
      KeysOfBooks(DocsOf(catalogue, last), key);
      ContentsConcat(AllBooks(catalogue, init), BooksOf(DocsOf(catalogue, last)));
      assert forall text :: text in texts <==> text in init || text == last;
    }
  }

  // ---- deliveries ----

  /** A message delivered once; `lands` says whether its transaction reached the database. */
  datatype Delivery = Delivery(texts: seq<Str>, lands: bool)

  ghost function Brings(catalogue: Catalogue, d: Delivery): seq<CreateBook> {
    if d.lands then AllBooks(catalogue, d.texts) else []
  }

  ghost function Deliver(t: Table, catalogue: Catalogue, ds: seq<Delivery>): Table {
    if ds == [] then t else SaveAll(Deliver(t, catalogue, ds[..|ds| - 1]), Brings(catalogue, ds[|ds| - 1]))
  }

  ghost function LandedKeys(catalogue: Catalogue, ds: seq<Delivery>): set<Content> {
    if ds == [] then {} else LandedKeys(catalogue, ds[..|ds| - 1]) + Contents(Brings(catalogue, ds[|ds| - 1]))
  }

  /** Any sequence of deliveries, with repeats, failures and in any order, leaves as live keys the
      initial ones and the truncated keys of the messages that landed, and no old row changed. */
  lemma {:induction false} DeliveriesAddKeys(t: Table, catalogue: Catalogue, ds: seq<Delivery>)
    requires Valid(t)
    ensures Valid(Deliver(t, catalogue, ds))
    ensures LiveKeys(Deliver(t, catalogue, ds)) == LiveKeys(t) + LandedKeys(catalogue, ds)
    ensures
      var after := Deliver(t, catalogue, ds).rows;
      forall id :: id in t.rows ==> id in after && after[id] == t.rows[id]
  {
    if ds != [] {
      var before := Deliver(t, catalogue, ds[..|ds| - 1]);
      DeliveriesAddKeys(t, catalogue, ds[..|ds| - 1]);
      SaveAllAdds(before, Brings(catalogue, ds[|ds| - 1]));
    }
  }

  lemma {:induction false} LandedMember(catalogue: Catalogue, ds: seq<Delivery>, d: Delivery)
    requires d in ds
    ensures Contents(Brings(catalogue, d)) <= LandedKeys(catalogue, ds)
  {
    if d != ds[|ds| - 1] {
      assert d in ds[..|ds| - 1];
      LandedMember(catalogue, ds[..|ds| - 1], d);
    }
  }

  lemma {:induction false} LandedSubset(catalogue: Catalogue, a: seq<Delivery>, b: seq<Delivery>)
    requires forall d :: d in a && d.lands ==> d in b
    ensures LandedKeys(catalogue, a) <= LandedKeys(catalogue, b)
  {
    if a != [] {
      var init, last := a[..|a| - 1], a[|a| - 1];
      assert forall d :: d in init ==> d in a;
      LandedSubset(catalogue, init, b);
      if last.lands {
        assert last in b;
        LandedMember(catalogue, b, last);
      }
    }
  }

  /** Order, repetition and what did not land do not matter to the live keys. */
  lemma OrderDoesNotMatter(t: Table, catalogue: Catalogue, a: seq<Delivery>, b: seq<Delivery>)
    requires Valid(t) && forall d: Delivery :: d.lands ==> (d in a <==> d in b)
    ensures LiveKeys(Deliver(t, catalogue, a)) == LiveKeys(Deliver(t, catalogue, b))
  {
    DeliveriesAddKeys(t, catalogue, a);
    DeliveriesAddKeys(t, catalogue, b);
    LandedSubset(catalogue, a, b);
    LandedSubset(catalogue, b, a);
  }

  /** A delivery of queries that have landed before adds no row and changes none. */
  lemma RedeliveryIsIdempotent(t: Table, catalogue: Catalogue, ds: seq<Delivery>, d: Delivery)
    requires Valid(t) && Delivery(d.texts, true) in ds
    ensures Deliver(t, catalogue, ds + [d]).rows == Deliver(t, catalogue, ds).rows
  {
    DeliveriesAddKeys(t, catalogue, ds);
    LandedMember(catalogue, ds, Delivery(d.texts, true));
    SaveAllAgain(Deliver(t, catalogue, ds), Brings(catalogue, d));
    assert (ds + [d])[..|ds|] == ds;
  }

  // ---- runs of the upload use case ----

  /** A message as it is handled once: its queries with the answers to their searches, and the faults
      its scope meets. */
  datatype Message = Message(queries: seq<Query>, faults: Faults)

  /** The use case: a failing search raises before any transaction, otherwise one scope saves every
      bucket. */
  ghost function Handle(u: Uow, catalogue: Catalogue, m: Message): (Uow, Option<Error>) {
    match CollectAll(catalogue, m.queries)
    case Err(e) => (u, Some(e))
    case Ok(books) => Scope(u, SaveBody(Buckets(books, BUCKET_SIZE)), m.faults)
  }

  /** Messages handled one after another by the same unit of work. */
  ghost function HandleAll(u: Uow, catalogue: Catalogue, ms: seq<Message>): Uow {
    if ms == [] then u else Handle(HandleAll(u, catalogue, ms[..|ms| - 1]), catalogue, ms[|ms| - 1]).0
  }

  /** A message reaches the database: its searches work, no transaction is left over, the scope
      begins, its body is not interrupted, the moment after the last bucket included, and the commit
      is not lost. */
  ghost predicate Reaches(u: Uow, catalogue: Catalogue, m: Message) {
    && CollectAll(catalogue, m.queries).Ok?
    && !u.transaction && !m.faults.begin && m.faults.commit != LostBefore
    && (m.faults.crash.Some? ==> m.faults.crash.value > Count(|CollectAll(catalogue, m.queries).value|, BUCKET_SIZE))
  }

  ghost function DeliveriesOf(u: Uow, catalogue: Catalogue, ms: seq<Message>): seq<Delivery> {
    if ms == [] then []
    else
      var init, last := ms[..|ms| - 1], ms[|ms| - 1];
      DeliveriesOf(u, catalogue, init) +
      [Delivery(Texts(last.queries), Reaches(HandleAll(u, catalogue, init), catalogue, last))]
  }

  lemma {:induction false} PrefixCompletes(tables: Tables, body: seq<Statement>, n: nat)
    requires ExecuteAll(tables, body).Ok? && n <= |body|
    ensures ExecuteAll(tables, body[..n]).Ok?
    decreases |body|
  {
    if n > 0 {
      PrefixCompletes(Execute(tables, body[0]).value, body[1..], n - 1);
      assert body[..n][0] == body[0] && body[..n][1..] == body[1..][..n - 1];
    }
  }

  /** What comes out of an upload: the failed search, otherwise the error of a unit of work still in a
      transaction, nothing when everything works, and else an interruption. */
  lemma UploadRaises(u: Uow, catalogue: Catalogue, m: Message)
    requires AtRest(u)
    ensures Handle(u, catalogue, m).1 ==
      if CollectAll(catalogue, m.queries).Err? then Some(SearchFailed)
      else if u.transaction then Some(AlreadyInTransaction)
      else if Reaches(u, catalogue, m) && m.faults.commit == Committed && !m.faults.close then None
      else Some(Interrupted)
  {
    var collected := CollectAll(catalogue, m.queries);
    CollectedIsAll(catalogue, m.queries);
    if collected.Ok? {
      var body := SaveBody(Buckets(collected.value, BUCKET_SIZE));
      BucketingIsTransparent(u.committed, collected.value, BUCKET_SIZE);
      ScopeErrors(u, body, m.faults);
      if m.faults.crash.Some? && m.faults.crash.value <= |body| {
        PrefixCompletes(u.committed, body, m.faults.crash.value);
      }
    }
  }

  /** Handling one message is delivering it: all of its books when it reaches the database, otherwise
      none. It raises nothing exactly when it reaches the database and its commit and close succeed. */
  lemma HandleDelivers(u: Uow, catalogue: Catalogue, m: Message)
    requires AtRest(u)
    ensures
      var (v, raised) := Handle(u, catalogue, m);
      var brought := Brings(catalogue, Delivery(Texts(m.queries), Reaches(u, catalogue, m)));
      && AtRest(v)
      && v.committed == u.committed.(books := SaveAll(u.committed.books, brought))
      && (raised.None? <==> Reaches(u, catalogue, m) && m.faults.commit == Committed && !m.faults.close)
      && (raised.None? ==> Idle(v))
  {
    var collected := CollectAll(catalogue, m.queries);
    CollectedIsAll(catalogue, m.queries);
    UploadRaises(u, catalogue, m);
    if collected.Ok? {
      BucketingIsTransparent(u.committed, collected.value, BUCKET_SIZE);
      ScopeIsAtomic(u, SaveBody(Buckets(collected.value, BUCKET_SIZE)), m.faults);
    }
  }

  /** After an upload that raises nothing a key is live exactly when it was before or it is that of a
      document of one of the queries that names its authors and is on a page up to the first with
      fewer than 100 of them: its title and its joined authors cut off at 255 characters, and no year. */
  lemma UploadedKeys(u: Uow, catalogue: Catalogue, m: Message, key: Content)
    requires AtRest(u) && Valid(u.committed.books) && Handle(u, catalogue, m).1.None?
    ensures key in LiveKeys(Handle(u, catalogue, m).0.committed.books) <==>
      key in LiveKeys(u.committed.books) || KeyOfMessage(catalogue, Texts(m.queries), key)
  {
    HandleDelivers(u, catalogue, m);
    SaveAllAdds(u.committed.books, AllBooks(catalogue, Texts(m.queries)));
    KeysOfMessage(catalogue, Texts(m.queries), key);
  }

  /** So any run of the use case, whichever searches fail and whatever its scopes meet, is a sequence of
      deliveries. */
  lemma {:induction false} RunsAreDeliveries(u: Uow, catalogue: Catalogue, ms: seq<Message>)
    requires AtRest(u)
    ensures AtRest(HandleAll(u, catalogue, ms)) && |DeliveriesOf(u, catalogue, ms)| == |ms|
    ensures HandleAll(u, catalogue, ms).committed
         == u.committed.(books := Deliver(u.committed.books, catalogue, DeliveriesOf(u, catalogue, ms)))
  {
    if ms != [] {
      var init := ms[..|ms| - 1];
      RunsAreDeliveries(u, catalogue, init);
      HandleDelivers(HandleAll(u, catalogue, init), catalogue, ms[|ms| - 1]);
      var ds := DeliveriesOf(u, catalogue, ms);
      assert ds[..|ds| - 1] == DeliveriesOf(u, catalogue, init);
    }
  }

  /** Any run of upload messages, with repeats, in any order, with any failing searches and faults, leaves as live keys
      the initial ones and the truncated keys of the messages that reached the database; it changes
      no old row and no user. */
  lemma UploadsAddKeys(u: Uow, catalogue: Catalogue, ms: seq<Message>)
    requires AtRest(u) && Valid(u.committed.books)
    ensures
      var before, after := u.committed.books, HandleAll(u, catalogue, ms).committed.books;
      && HandleAll(u, catalogue, ms).committed.users == u.committed.users
      && Valid(after)
      && LiveKeys(after) == LiveKeys(before) + LandedKeys(catalogue, DeliveriesOf(u, catalogue, ms))
      && (forall id :: id in before.rows ==> id in after.rows && after.rows[id] == before.rows[id])
  {
    RunsAreDeliveries(u, catalogue, ms);
    DeliveriesAddKeys(u.committed.books, catalogue, DeliveriesOf(u, catalogue, ms));
  }

  /** Two runs from the same tables in which the same messages reached the database, in whatever order
      and however often, end with the same live keys. */
  lemma UploadOrderDoesNotMatter(u: Uow, v: Uow, catalogue: Catalogue, a: seq<Message>, b: seq<Message>)
    requires AtRest(u) && AtRest(v) && u.committed.books == v.committed.books && Valid(u.committed.books)
    requires forall d: Delivery :: d.lands ==>
               (d in DeliveriesOf(u, catalogue, a) <==> d in DeliveriesOf(v, catalogue, b))
    ensures LiveKeys(HandleAll(u, catalogue, a).committed.books) == LiveKeys(HandleAll(v, catalogue, b).committed.books)
  {
    RunsAreDeliveries(u, catalogue, a);
    RunsAreDeliveries(v, catalogue, b);
    OrderDoesNotMatter(u.committed.books, catalogue, DeliveriesOf(u, catalogue, a), DeliveriesOf(v, catalogue, b));
  }

  /** Handling again a message that reached the database before adds no row and changes none, whatever
      was handled in between and whatever fails this time. */
  lemma UploadAgain(u: Uow, catalogue: Catalogue, ms: seq<Message>, m: Message)
    requires AtRest(u) && Valid(u.committed.books)
    requires Delivery(Texts(m.queries), true) in DeliveriesOf(u, catalogue, ms)
    ensures HandleAll(u, catalogue, ms + [m]).committed.books.rows == HandleAll(u, catalogue, ms).committed.books.rows
  {
    RunsAreDeliveries(u, catalogue, ms);
    RunsAreDeliveries(u, catalogue, ms + [m]);
    assert (ms + [m])[..|ms|] == ms;
    var ds := DeliveriesOf(u, catalogue, ms);
    var again := Delivery(Texts(m.queries), Reaches(HandleAll(u, catalogue, ms), catalogue, m));
    RedeliveryIsIdempotent(u.committed.books, catalogue, ds, again);
  }
}
