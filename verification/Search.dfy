/** The search client's filter and the page loop over it. */
module Search {
  import opened Prelude
  import opened Slices
  import opened Books

  const BUCKET_SIZE: nat := 100

  /** A document of a search response. */
  datatype Doc = Doc(key: Str, title: Str, authorName: Option<seq<Str>>)

  datatype FoundBook = FoundBook(key: Str, title: Str, authors: seq<Str>)

  /** Each query has a finite list of documents. */
  type Catalogue = map<Str, seq<Doc>>

  function DocsOf(catalogue: Catalogue, query: Str): seq<Doc> {
    if query in catalogue then catalogue[query] else []
  }

  /** The search service: it serves the documents by limit/offset slices; `down` are the requests
      that fail. */
  datatype Upstream = Upstream(docs: Catalogue, down: set<(Str, nat)>)

  /** What one search of the page loop gives. */
  type Answer = Result<seq<FoundBook>, Error>

  function OfDoc(doc: Doc): seq<FoundBook> {
    if doc.authorName.None? then [] else [FoundBook(doc.key, doc.title, doc.authorName.value)]
  }

  /** The documents that name their authors, as books. */
  function Authored(docs: seq<Doc>): (books: seq<FoundBook>)
    ensures |books| <= |docs|
  {
    if docs == [] then []
    else
      OfDoc(docs[0]) + Authored(docs[1..])
  }

  function SearchBooks(up: Upstream, query: Str, limit: nat, offset: nat): Answer {
    if (query, offset) in up.down then Err(SearchFailed)
    else Ok(Authored(Slice(DocsOf(up.docs, query), offset, limit)))
  }

  function Join(separator: Str, parts: seq<Str>): Str {
    if parts == [] then [] else if |parts| == 1 then parts[0]
    else parts[0] + separator + Join(separator, parts[1..])
  }

  const COMMA: Str := [44]

  function ToCreate(b: FoundBook): CreateBook {
    CreateBook(b.title, 0, Join(COMMA, b.authors))
  }

  function ToCreateAll(books: seq<FoundBook>): (r: seq<CreateBook>)
    ensures |r| == |books| && forall i :: 0 <= i < |books| ==> r[i] == ToCreate(books[i])
  {
    seq(|books|, i requires 0 <= i < |books| => ToCreate(books[i]))
  }

  // ---- the author text ----

  /** One more character in front of a text split into parts. */
  function InFront(c: CodePoint, parts: seq<Str>): (r: seq<Str>)
    requires parts != []
    ensures r != []
  {
    if c == 44 then [[]] + parts else [[c] + parts[0]] + parts[1..]
  }

  function SplitAtCommas(s: Str): (parts: seq<Str>)
    ensures parts != []
  {
    if s == [] then [[]] else InFront(s[0], SplitAtCommas(s[1..]))
  }

  lemma {:induction false} SplitPart(part: Str, rest: Str)
    requires 44 !in part
    ensures SplitAtCommas(part) == [part]
    ensures SplitAtCommas(part + COMMA + rest) == [part] + SplitAtCommas(rest)
  {
    if part == [] {
      assert part + COMMA + rest == COMMA + rest && (COMMA + rest)[1..] == rest;
    } else {
      SplitPart(part[1..], rest);
      assert (part + COMMA + rest)[1..] == part[1..] + COMMA + rest;
      assert part == [part[0]] + part[1..];
    }
  }

  predicate NoComma(parts: seq<Str>) {
    forall i :: 0 <= i < |parts| ==> 44 !in parts[i]
  }

  /** The joined text determines the authors when no name contains a comma. */
  lemma {:induction false} JoinedAuthorsSplit(authors: seq<Str>)
    requires authors != [] && NoComma(authors)
    ensures SplitAtCommas(Join(COMMA, authors)) == authors
  {
    if |authors| == 1 {
      SplitPart(authors[0], []);
    } else {
      SplitPart(authors[0], Join(COMMA, authors[1..]));
      JoinedAuthorsSplit(authors[1..]);
    }
  }

  function SplitEach(parts: seq<Str>): seq<Str> {
    if parts == [] then [] else SplitAtCommas(parts[0]) + SplitEach(parts[1..])
  }

  lemma InFrontOfConcat(c: CodePoint, a: seq<Str>, b: seq<Str>)
    requires a != []
    ensures InFront(c, a + b) == InFront(c, a) + b
  {
    assert (a + b)[0] == a[0] && (a + b)[1..] == a[1..] + b;
  }

  lemma {:induction false} SplitConcat(part: Str, rest: Str)
    ensures SplitAtCommas(part + COMMA + rest) == SplitAtCommas(part) + SplitAtCommas(rest)
  {
    if part == [] {
      assert part + COMMA + rest == COMMA + rest && (COMMA + rest)[1..] == rest;
      assert SplitAtCommas(COMMA + rest) == InFront(44, SplitAtCommas(rest));
    } else {
      var all := part + COMMA + rest;
      SplitConcat(part[1..], rest);
      assert all[0] == part[0] && all[1..] == part[1..] + COMMA + rest;
      InFrontOfConcat(part[0], SplitAtCommas(part[1..]), SplitAtCommas(rest));
      assert SplitAtCommas(all) == InFront(part[0], SplitAtCommas(part[1..] + COMMA + rest));
    }
  }

  /** Whatever the names contain, the joined text is their pieces between commas, in order. */
  lemma {:induction false} JoinedPieces(parts: seq<Str>)
    requires parts != []
    ensures SplitAtCommas(Join(COMMA, parts)) == SplitEach(parts)
  {
    if |parts| > 1 {
      SplitConcat(parts[0], Join(COMMA, parts[1..]));
      JoinedPieces(parts[1..]);
    } else {
      assert SplitEach(parts[1..]) == [];
    }
  }

  lemma JoinInFront(c: CodePoint, parts: seq<Str>)
    requires parts != []
    ensures Join(COMMA, InFront(c, parts)) == [c] + Join(COMMA, parts)
  {
    if c == 44 {
      assert ([[]] + parts)[1..] == parts;
    } else {
      var r := InFront(c, parts);
      assert r[0] == [c] + parts[0] && r[1..] == parts[1..];
    }
  }

  lemma NoCommaInFront(c: CodePoint, parts: seq<Str>)
    requires parts != [] && NoComma(parts)
    ensures NoComma(InFront(c, parts))
  {
  }

  /** Splitting loses nothing and leaves no comma. */
  lemma {:induction false} SplitJoins(s: Str)
    ensures Join(COMMA, SplitAtCommas(s)) == s
    ensures NoComma(SplitAtCommas(s))
  {
    if s != [] {
      SplitJoins(s[1..]);
      JoinInFront(s[0], SplitAtCommas(s[1..]));
      NoCommaInFront(s[0], SplitAtCommas(s[1..]));
      assert s == [s[0]] + s[1..];
    }
  }

  /** The author text that is stored gives the authors back exactly when there is an author, no name
      contains a comma and the joined names fit the column: longer ones are cut off. */
  lemma StoredAuthorsSplit(b: FoundBook)
    ensures SplitAtCommas(Stored(ToCreate(b)).author) == b.authors <==>
      && b.authors != []
      && NoComma(b.authors)
      && |Join(COMMA, b.authors)| <= WIDTH
  {
    SplitJoins(Stored(ToCreate(b)).author);
    if b.authors != [] && NoComma(b.authors) {
      JoinedAuthorsSplit(b.authors);
    }
  }

  /** Two authors whose names differ only after the 255th character are stored alike. */
  lemma LongAuthorsCollide()
    ensures
      var a := FoundBook([], [], [seq(256, i => 97)]);
      var b := FoundBook([], [], [seq(256, i => if i == 255 then 98 else 97)]);
      a.authors != b.authors && Stored(ToCreate(a)) == Stored(ToCreate(b))
  {
    var a: Str := seq(256, i => 97);
    var b: Str := seq(256, i => if i == 255 then 98 else 97);
    assert a[255] != b[255];
    assert a[..WIDTH] == b[..WIDTH];
  }

  // ---- filter laws ----

  lemma TailOfConcat(a: seq<Doc>, b: seq<Doc>)
    requires a != []
    ensures (a + b)[0] == a[0] && (a + b)[1..] == a[1..] + b
  {
  }

  lemma {:induction false} AuthoredConcat(a: seq<Doc>, b: seq<Doc>)
    ensures Authored(a + b) == Authored(a) + Authored(b)
  {
    if a == [] {
      assert a + b == b;
    } else {
      AuthoredConcat(a[1..], b);
      TailOfConcat(a, b);
      ConcatAssociates(OfDoc(a[0]), Authored(a[1..]), Authored(b));
    }
  }

  lemma {:induction false} AuthoredFull(docs: seq<Doc>)
    ensures |Authored(docs)| == |docs| <==> forall i :: 0 <= i < |docs| ==> docs[i].authorName.Some?
  {
    if docs != [] {
      var rest := docs[1..];
      AuthoredFull(rest);
      assert forall i :: 0 <= i < |rest| ==> rest[i] == docs[i + 1];
      assert forall i :: 1 <= i < |docs| ==> docs[i] == rest[i - 1];
    }
  }

  lemma {:induction false} AuthoredNone(docs: seq<Doc>)
    ensures Authored(docs) == [] <==> forall i :: 0 <= i < |docs| ==> docs[i].authorName.None?
  {
    if docs != [] {
      var rest := docs[1..];
      AuthoredNone(rest);
      assert forall i :: 0 <= i < |rest| ==> rest[i] == docs[i + 1];
      assert forall i :: 1 <= i < |docs| ==> docs[i] == rest[i - 1];
    }
  }

  predicate Increasing(xs: seq<nat>) {
    forall i, j :: 0 <= i < j < |xs| ==> xs[i] < xs[j]
  }

  /** The book a document with authors is found as. */
  predicate IsFoundAs(doc: Doc, book: FoundBook) {
    doc.authorName == Some(book.authors) && book.title == doc.title && book.key == doc.key
  }

  lemma AuthoredSnoc(docs: seq<Doc>, last: Doc)
    ensures Authored(docs + [last]) == Authored(docs) + OfDoc(last)
  {
    AuthoredConcat(docs, [last]);
    assert Authored([last]) == OfDoc(last) + Authored([last][1..]);
  }

  /** The filter keeps, in order, exactly the documents that name their authors, each with its own key,
      title and names; `at` are their positions. */
  lemma {:induction false} AuthoredAt(docs: seq<Doc>) returns (at: seq<nat>)
    ensures |at| == |Authored(docs)| && Increasing(at)
    ensures forall j: nat :: j in at <==> j < |docs| && docs[j].authorName.Some?
    ensures forall i :: 0 <= i < |at| ==> at[i] < |docs| && IsFoundAs(docs[at[i]], Authored(docs)[i])
  {
    if docs == [] {
      at := [];
    } else {
      var n := |docs| - 1;
      at := AuthoredAt(docs[..n]);
      AuthoredSnoc(docs[..n], docs[n]);
      assert docs == docs[..n] + [docs[n]];
      if docs[n].authorName.Some? {
        at := at + [n];
      }
    }
  }

  /** The positions in a range of the documents that name their authors. */
  function AuthoredWithin(docs: seq<Doc>, from: nat, to: nat): set<nat> {
    set j: nat | from <= j < to && j < |docs| && docs[j].authorName.Some?
  }

  lemma AuthoredLast(docs: seq<Doc>, from: nat, to: nat)
    requires from < to <= |docs|
    ensures |Authored(docs[from..to])| ==
      |Authored(docs[from..to - 1])| + if docs[to - 1].authorName.Some? then 1 else 0
  {
    assert docs[from..to] == docs[from..to - 1] + [docs[to - 1]];
    AuthoredSnoc(docs[from..to - 1], docs[to - 1]);
  }

  lemma WithinLast(docs: seq<Doc>, from: nat, to: nat)
    requires from < to <= |docs|
    ensures |AuthoredWithin(docs, from, to)| ==
      |AuthoredWithin(docs, from, to - 1)| + if docs[to - 1].authorName.Some? then 1 else 0
  {
    var init := AuthoredWithin(docs, from, to - 1);
    if docs[to - 1].authorName.Some? {
      assert AuthoredWithin(docs, from, to) == init + {to - 1};
    } else {
      assert AuthoredWithin(docs, from, to) == init;
    }
  }

  lemma {:induction false} AuthoredCounts(docs: seq<Doc>, from: nat, to: nat)
    requires from <= to <= |docs|
    ensures |Authored(docs[from..to])| == |AuthoredWithin(docs, from, to)|
  {
    if from == to {
      assert AuthoredWithin(docs, from, to) == {};
    } else {
      AuthoredCounts(docs, from, to - 1);
      AuthoredLast(docs, from, to);
      WithinLast(docs, from, to);
    }
  }

  // ---- which page stops the loop ----

  function Page(docs: seq<Doc>, i: nat): seq<FoundBook> {
    Authored(Slice(docs, BUCKET_SIZE * i, BUCKET_SIZE))
  }

  /** Page k is the first with fewer than 100 authored documents. */
  predicate StopsAt(docs: seq<Doc>, k: nat) {
    |Page(docs, k)| < BUCKET_SIZE && forall i :: 0 <= i < k ==> |Page(docs, i)| == BUCKET_SIZE
  }

  /** What the loop has read once it stops at page k: not the whole list. */
  function ReadUpTo(docs: seq<Doc>, pages: nat): seq<Doc> {
    docs[..Min(BUCKET_SIZE * pages, |docs|)]
  }

  lemma FullPage(docs: seq<Doc>, i: nat)
    requires |Page(docs, i)| >= BUCKET_SIZE
    ensures |Page(docs, i)| == BUCKET_SIZE && BUCKET_SIZE * i + BUCKET_SIZE <= |docs|
  {
  }

  /** The page that stops the loop; some page does, since a full one needs 100 documents. */
  function StopFrom(docs: seq<Doc>, from: nat): (k: nat)
    requires forall i :: 0 <= i < from ==> |Page(docs, i)| == BUCKET_SIZE
    ensures StopsAt(docs, k)
    decreases |docs| - BUCKET_SIZE * from
  {
    if |Page(docs, from)| < BUCKET_SIZE then from
    else
      FullPage(docs, from);
      StopFrom(docs, from + 1)
  }

  lemma StopUnique(docs: seq<Doc>, j: nat, k: nat)
    requires StopsAt(docs, j) && StopsAt(docs, k)
    ensures j == k
  {
  }

  lemma ReadMore(docs: seq<Doc>, i: nat)
    ensures Authored(ReadUpTo(docs, i + 1)) == Authored(ReadUpTo(docs, i)) + Page(docs, i)
  {
    AuthoredConcat(ReadUpTo(docs, i), Slice(docs, BUCKET_SIZE * i, BUCKET_SIZE));
    assert ReadUpTo(docs, i + 1) == ReadUpTo(docs, i) + Slice(docs, BUCKET_SIZE * i, BUCKET_SIZE);
  }

  lemma ToCreateConcat(a: seq<FoundBook>, b: seq<FoundBook>)
    ensures ToCreateAll(a + b) == ToCreateAll(a) + ToCreateAll(b)
  {
  }

  lemma ReadMoreBooks(docs: seq<Doc>, i: nat)
    ensures ToCreateAll(Authored(ReadUpTo(docs, i + 1)))
         == ToCreateAll(Authored(ReadUpTo(docs, i))) + ToCreateAll(Page(docs, i))
  {
    ReadMore(docs, i);
    ToCreateConcat(Authored(ReadUpTo(docs, i)), Page(docs, i));
  }

  /** Search i of the loop gets page i of the documents, or fails. */
  ghost predicate PageOrFailure(search: nat -> Answer, docs: seq<Doc>, i: nat) {
    match search(BUCKET_SIZE * i)
    case Ok(found) => found == Page(docs, i)
    case Err(error) => error == SearchFailed
  }

  /** How a client answers the loop: always so, whichever searches fail. */
  ghost predicate Serves(search: nat -> Answer, docs: seq<Doc>) {
    forall i: nat {:trigger PageOrFailure(search, docs, i)} :: PageOrFailure(search, docs, i)
  }

  predicate Fails(search: nat -> Answer, i: nat) {
    search(BUCKET_SIZE * i).Err?
  }

  ghost predicate FailsBy(search: nat -> Answer, k: nat) {
    exists i: nat :: i <= k && Fails(search, i)
  }

  /** What holds before search i: every earlier page was full and has been read. */
  ghost predicate ReadSoFar(search: nat -> Answer, docs: seq<Doc>, i: nat, books: seq<CreateBook>) {
    && books == ToCreateAll(Authored(ReadUpTo(docs, i)))
    && BUCKET_SIZE * i <= |docs|
    && (forall j :: 0 <= j < i ==> |Page(docs, j)| == BUCKET_SIZE)
    && (forall j: nat :: j < i ==> !Fails(search, j))
  }

  lemma ReadNext(search: nat -> Answer, docs: seq<Doc>, i: nat, books: seq<CreateBook>)
    requires ReadSoFar(search, docs, i, books) && !Fails(search, i)
    ensures
      var next := books + ToCreateAll(Page(docs, i));
      if |Page(docs, i)| < BUCKET_SIZE
      then StopsAt(docs, i) && !FailsBy(search, i) && next == ToCreateAll(Authored(ReadUpTo(docs, i + 1)))
      else BUCKET_SIZE * i < |docs| && ReadSoFar(search, docs, i + 1, next)
  {
    ReadMoreBooks(docs, i);
    if |Page(docs, i)| >= BUCKET_SIZE {
      FullPage(docs, i);
    }
  }

  /** `_get_all_books_by_query`: the loop stops on the length of the filtered page while the offset
      advances over unfiltered documents. Whatever client answers its searches, it ends after at most
      |docs|/100 + 1 of them, and unless one fails returns, in order, the authored documents among
      the first 100(k+1). */
  method GetAllBooksByQuery(search: nat -> Answer, ghost docs: seq<Doc>)
    returns (r: Result<seq<CreateBook>, Error>, ghost k: nat, ghost searches: nat)
    requires Serves(search, docs)
    ensures StopsAt(docs, k)
    ensures searches <= |docs| / BUCKET_SIZE + 1
    ensures r.Err? <==> FailsBy(search, k)
    ensures r.Err? ==> r.error == SearchFailed
    ensures r.Ok? ==> searches == k + 1 && r.value == ToCreateAll(Authored(ReadUpTo(docs, k + 1)))
  {
    var books: seq<CreateBook> := [];
    var offset: nat := 0;
    searches := 0;
    while true
      invariant offset == BUCKET_SIZE * searches && ReadSoFar(search, docs, searches, books)
      decreases |docs| - offset
    {
      ghost var i := searches;
      assert PageOrFailure(search, docs, i);
      searches := searches + 1;
      match search(offset) {
        case Err(error) =>
          k := StopFrom(docs, i);
          assert Fails(search, i);
          return Err(error), k, searches;
        case Ok(found) =>
          ReadNext(search, docs, i, books);
          books := books + ToCreateAll(found);
          if |found| < BUCKET_SIZE {
            return Ok(books), i, searches;
          }
          offset := offset + BUCKET_SIZE;
      }
    }
  }

  /** The searches of a loop that asks the search service itself. */
  function Direct(up: Upstream, query: Str): nat -> Answer {
    (offset: nat) => SearchBooks(up, query, BUCKET_SIZE, offset)
  }

  lemma DirectServes(up: Upstream, query: Str)
    ensures Serves(Direct(up, query), DocsOf(up.docs, query))
    ensures forall i: nat :: Fails(Direct(up, query), i) <==> (query, BUCKET_SIZE * i) in up.down
  {
    forall i: nat ensures PageOrFailure(Direct(up, query), DocsOf(up.docs, query), i) {}
  }

  /** How many books page i has: as many as documents i*100 to i*100+99 name their authors. */
  lemma PageCounts(docs: seq<Doc>, i: nat)
    ensures |Page(docs, i)| == |AuthoredWithin(docs, BUCKET_SIZE * i, BUCKET_SIZE * i + BUCKET_SIZE)|
  {
    var from, to := Min(BUCKET_SIZE * i, |docs|), Min(BUCKET_SIZE * i + BUCKET_SIZE, |docs|);
    AuthoredCounts(docs, from, to);
    assert AuthoredWithin(docs, BUCKET_SIZE * i, BUCKET_SIZE * i + BUCKET_SIZE) == AuthoredWithin(docs, from, to);
  }

  /** The author text of a document: nothing when it names no one, otherwise the pieces of its names. */
  ghost predicate Names(author: Str, names: seq<Str>) {
    && (names == [] ==> author == [])
    && (names != [] ==> SplitAtCommas(author) == SplitEach(names))
    && (names != [] && NoComma(names) ==> SplitAtCommas(author) == names)
  }

  /** The book a document is created as: its own title, no year, its own authors. */
  ghost predicate IsCreatedFrom(book: CreateBook, doc: Doc) {
    book.title == doc.title && book.year == 0 && doc.authorName.Some? && Names(book.author, doc.authorName.value)
  }

  lemma FoundIsCreated(doc: Doc, book: FoundBook)
    requires IsFoundAs(doc, book)
    ensures IsCreatedFrom(ToCreate(book), doc)
  {
    if book.authors != [] {
      JoinedPieces(book.authors);
      if NoComma(book.authors) {
        JoinedAuthorsSplit(book.authors);
      }
    }
  }

  /** What the loop's result says about the documents themselves: book i is made of the i-th document
      among the first 100(k+1) that names its authors. */
  lemma CreatedBooks(docs: seq<Doc>, k: nat) returns (at: seq<nat>)
    ensures
      var books := ToCreateAll(Authored(ReadUpTo(docs, k + 1)));
      && |at| == |books| && Increasing(at)
      && (forall j: nat :: j in at <==> j < |docs| && j < BUCKET_SIZE * (k + 1) && docs[j].authorName.Some?)
      && (forall i :: 0 <= i < |at| ==> at[i] < |docs| && IsCreatedFrom(books[i], docs[at[i]]))
  {
    var read := ReadUpTo(docs, k + 1);
    at := AuthoredAt(read);
    forall i | 0 <= i < |at| ensures at[i] < |docs| && IsCreatedFrom(ToCreate(Authored(read)[i]), docs[at[i]]) {
      assert read[at[i]] == docs[at[i]];
      FoundIsCreated(docs[at[i]], Authored(read)[i]);
    }
  }

  // ---- what that result means ----

  /** The loop returns a prefix of all authored documents; it returns all of them exactly when the
      documents after the page it stops at name no author. */
  lemma LoopCompleteness(docs: seq<Doc>, k: nat)
    requires StopsAt(docs, k)
    ensures Authored(ReadUpTo(docs, k + 1)) <= Authored(docs)
    ensures Authored(ReadUpTo(docs, k + 1)) == Authored(docs) <==>
              forall i :: BUCKET_SIZE * (k + 1) <= i < |docs| ==> docs[i].authorName.None?
  {
    var read := ReadUpTo(docs, k + 1);
    var rest := docs[|read|..];
    assert docs == read + rest;
    AuthoredConcat(read, rest);
    AuthoredNone(rest);
    assert Authored(read) == Authored(docs) <==> Authored(rest) == [];
    if forall i :: 0 <= i < |rest| ==> rest[i].authorName.None? {
      forall i | BUCKET_SIZE * (k + 1) <= i < |docs| ensures docs[i].authorName.None? {
        assert docs[i] == rest[i - |read|];
      }
    }
    if forall i :: BUCKET_SIZE * (k + 1) <= i < |docs| ==> docs[i].authorName.None? {
      forall i | 0 <= i < |rest| ensures rest[i].authorName.None? {
        assert rest[i] == docs[i + |read|];
      }
    }
  }

  /** In particular nothing is lost when every page before the last is fully authored. */
  lemma FullyAuthoredIsComplete(docs: seq<Doc>, k: nat)
    requires StopsAt(docs, k)
    requires forall i :: 0 <= i < |docs| && i / BUCKET_SIZE < (|docs| - 1) / BUCKET_SIZE ==> docs[i].authorName.Some?
    ensures Authored(ReadUpTo(docs, k + 1)) == Authored(docs)
  {
    if BUCKET_SIZE * (k + 1) < |docs| {
      AuthoredFull(Slice(docs, BUCKET_SIZE * k, BUCKET_SIZE));
      assert false;
    }
    assert ReadUpTo(docs, k + 1) == docs;
  }

  /** One document without authors on a page is enough to lose every later page. */
  lemma AuthorlessDocLosesRest()
    ensures
      var docs := seq(101, i => Doc([], [], if i == 99 then None else Some([])));
      StopsAt(docs, 0) && |Authored(ReadUpTo(docs, 1))| < |Authored(docs)|
  {
    var docs := seq(101, i => Doc([], [], if i == 99 then None else Some([])));
    AuthoredFull(Slice(docs, 0, BUCKET_SIZE));
    assert Slice(docs, 0, BUCKET_SIZE)[99].authorName.None?;
    LoopCompleteness(docs, 0);
    assert docs[100].authorName.Some?;
  }
}
