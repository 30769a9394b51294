/** The page loop and the upload served through the cached stack. */
module Pipeline {
  import opened Prelude
  import opened PyRepr
  import opened Books
  import opened BookLaws
  import opened Search
  import opened CachedStack
  import opened UnitOfWork
  import U = Upload
  import R = Reducer

  type Found = seq<FoundBook>

  /** How a coroutine of the client's search ends for a request. */
  function SearchOutcome(up: Upstream, r: Request): R.Outcome<Found> {
    if r.limit < 0 || r.offset < 0 then R.Raised(R.Exception(0))
    else
      match SearchBooks(up, r.query, r.limit, r.offset)
      case Ok(books) => R.Value(books)
      case Err(_) => R.Raised(R.Exception(1))
  }

  /** Caller c asks for page i of the query. */
  predicate AsksFor(s: Stack<Found>, c: nat, query: Str, i: nat) {
    c < |s.callers| && s.callers[c].request == Request(query, BUCKET_SIZE, BUCKET_SIZE * i)
  }

  predicate HasAnswer(s: Stack<Found>, c: nat) {
    c < |s.callers| && s.callers[c].place.Answered?
  }

  /** Whatever else the stack is doing, page i of a query answered through cache and single flight is
      page i of the query's documents, a request that fails upstream never gets an answer, and an
      error is raised only for one that does. */
  lemma StackServesPages(printable: CodePoint -> bool, up: Upstream, es: seq<StackEvent<Found>>,
                         c: nat, query: Str, i: nat)
    requires AllObey(printable, r => SearchOutcome(up, r), es)
    requires AsksFor(Moves(printable, Empty(), es), c, query, i)
    ensures
      var place := Moves(printable, Empty<Found>(), es).callers[c].place;
      && (place.Answered? ==> place.value == Page(DocsOf(up.docs, query), i) && (query, BUCKET_SIZE * i) !in up.down)
      && (place.Failed? ==> (query, BUCKET_SIZE * i) in up.down)
  {
    StackRefinesUpstream(printable, r => SearchOutcome(up, r), es);
  }

  // ---- the page loop, its searches made by callers of the stack ----

  /** What the loop gets from a caller: the answer, or a failure when the caller has none. */
  function AnswerTo(s: Stack<Found>, c: nat): Answer {
    if HasAnswer(s, c) then Ok(s.callers[c].place.value) else Err(SearchFailed)
  }

  /** A query whose page i was asked for by caller loop[i]. */
  datatype Ask = Ask(text: Str, loop: seq<nat>)

  function Through(s: Stack<Found>, loop: seq<nat>): nat -> Answer {
    (offset: nat) =>
      if offset / BUCKET_SIZE < |loop| then AnswerTo(s, loop[offset / BUCKET_SIZE]) else Err(SearchFailed)
  }

  predicate Asks(s: Stack<Found>, ask: Ask) {
    forall i :: 0 <= i < |ask.loop| ==> AsksFor(s, ask.loop[i], ask.text, i)
  }

  lemma ThroughPage(s: Stack<Found>, loop: seq<nat>, i: nat)
    ensures Through(s, loop)(BUCKET_SIZE * i) == if i < |loop| then AnswerTo(s, loop[i]) else Err(SearchFailed)
  {
    assert BUCKET_SIZE * i / BUCKET_SIZE == i;
  }

  /** The stack is a client the loop can work with: it serves the query's pages, or fails. */
  lemma StackServes(printable: CodePoint -> bool, up: Upstream, es: seq<StackEvent<Found>>, ask: Ask)
    requires AllObey(printable, r => SearchOutcome(up, r), es)
    requires Asks(Moves(printable, Empty(), es), ask)
    ensures Serves(Through(Moves(printable, Empty(), es), ask.loop), DocsOf(up.docs, ask.text))
  {
    var s := Moves(printable, Empty<Found>(), es);
    forall i: nat ensures PageOrFailure(Through(s, ask.loop), DocsOf(up.docs, ask.text), i) {
      ThroughPage(s, ask.loop, i);
      if i < |ask.loop| {
        assert AsksFor(s, ask.loop[i], ask.text, i);
        StackServesPages(printable, up, es, ask.loop[i], ask.text, i);
      }
    }
  }

  /** The callers of pages 0 to k all have their answers. */
  predicate AnsweredTo(s: Stack<Found>, loop: seq<nat>, k: nat) {
    k < |loop| && forall i :: 0 <= i <= k ==> HasAnswer(s, loop[i])
  }

  lemma FailsThrough(s: Stack<Found>, loop: seq<nat>, k: nat)
    ensures FailsBy(Through(s, loop), k) <==> !AnsweredTo(s, loop, k)
  {
    forall i: nat | i <= k
      ensures Fails(Through(s, loop), i) <==> !(i < |loop| && HasAnswer(s, loop[i]))
    {
      ThroughPage(s, loop, i);
    }
    if k >= |loop| {
      assert Fails(Through(s, loop), k);
    }
  }

  lemma CollectedThrough(s: Stack<Found>, catalogue: Catalogue, ask: Ask)
    ensures
      var docs := DocsOf(catalogue, ask.text);
      U.Collected(catalogue, U.Query(ask.text, Through(s, ask.loop))) ==
        if AnsweredTo(s, ask.loop, StopFrom(docs, 0)) then Ok(U.BooksOf(docs)) else Err(SearchFailed)
  {
    FailsThrough(s, ask.loop, StopFrom(DocsOf(catalogue, ask.text), 0));
  }

  /** The page loop run through the stack: whatever other callers, expiries, outside writes and
      cancellations do, the stack is a client the loop can work with, and the loop collects exactly
      what the search service has for it once the pages up to the first with fewer than 100 authored
      documents are answered; otherwise it fails. */
  lemma LoopThroughStack(printable: CodePoint -> bool, up: Upstream, es: seq<StackEvent<Found>>, ask: Ask)
    requires AllObey(printable, r => SearchOutcome(up, r), es)
    requires Asks(Moves(printable, Empty(), es), ask)
    ensures
      var s, docs := Moves(printable, Empty<Found>(), es), DocsOf(up.docs, ask.text);
      && Serves(Through(s, ask.loop), docs)
      && U.Collected(up.docs, U.Query(ask.text, Through(s, ask.loop))) ==
           if AnsweredTo(s, ask.loop, StopFrom(docs, 0)) then Ok(U.BooksOf(docs)) else Err(SearchFailed)
  {
    StackServes(printable, up, es, ask);
    CollectedThrough(Moves(printable, Empty<Found>(), es), up.docs, ask);
  }

  // ---- the upload ----

  function Queries(s: Stack<Found>, asks: seq<Ask>): (queries: seq<U.Query>)
    ensures |queries| == |asks|
    ensures forall i :: 0 <= i < |asks| ==> queries[i] == U.Query(asks[i].text, Through(s, asks[i].loop))
  {
    seq(|asks|, i requires 0 <= i < |asks| => U.Query(asks[i].text, Through(s, asks[i].loop)))
  }

  /** The stack can serve any message, so every law of uploads is one of uploads through the stack. */
  lemma StackServesMessages(printable: CodePoint -> bool, up: Upstream, es: seq<StackEvent<Found>>, asks: seq<Ask>)
    requires AllObey(printable, r => SearchOutcome(up, r), es)
    requires forall i :: 0 <= i < |asks| ==> Asks(Moves(printable, Empty(), es), asks[i])
    ensures U.ServesAll(up.docs, Queries(Moves(printable, Empty(), es), asks))
  {
    var s := Moves(printable, Empty<Found>(), es);
    forall i | 0 <= i < |asks| ensures Serves(Queries(s, asks)[i].search, DocsOf(up.docs, asks[i].text)) {
      StackServes(printable, up, es, asks[i]);
    }
  }

  /** Every loop of the message has been answered up to the page at which it stops. */
  ghost predicate AllAnswered(s: Stack<Found>, catalogue: Catalogue, asks: seq<Ask>) {
    forall i :: 0 <= i < |asks| ==> AnsweredTo(s, asks[i].loop, StopFrom(DocsOf(catalogue, asks[i].text), 0))
  }

  function AskTexts(asks: seq<Ask>): (texts: seq<Str>)
    ensures |texts| == |asks| && forall i :: 0 <= i < |asks| ==> texts[i] == asks[i].text
  {
    seq(|asks|, i requires 0 <= i < |asks| => asks[i].text)
  }

  lemma AnsweredInit(s: Stack<Found>, catalogue: Catalogue, init: seq<Ask>, last: Ask)
    ensures AllAnswered(s, catalogue, init + [last]) <==>
      AllAnswered(s, catalogue, init) && AnsweredTo(s, last.loop, StopFrom(DocsOf(catalogue, last.text), 0))
  {
    var asks := init + [last];
    if AllAnswered(s, catalogue, asks) {
      assert asks[|init|] == last;
      forall i | 0 <= i < |init|
        ensures AnsweredTo(s, init[i].loop, StopFrom(DocsOf(catalogue, init[i].text), 0))
      {
        assert asks[i] == init[i];
      }
    }
  }

  /** The message is collected exactly when its loops are answered. */
  ghost predicate CollectsThrough(s: Stack<Found>, catalogue: Catalogue, asks: seq<Ask>) {
    U.CollectAll(catalogue, Queries(s, asks)) ==
      if AllAnswered(s, catalogue, asks) then Ok(U.AllBooks(catalogue, AskTexts(asks))) else Err(SearchFailed)
  }

  lemma SnocAsks(s: Stack<Found>, init: seq<Ask>, last: Ask)
    ensures Queries(s, init + [last]) == Queries(s, init) + [U.Query(last.text, Through(s, last.loop))]
    ensures AskTexts(init + [last]) == AskTexts(init) + [last.text]
  {
  }

  lemma InitLast<T>(xs: seq<T>)
    requires xs != []
    ensures xs == xs[..|xs| - 1] + [xs[|xs| - 1]]
  {
  }

  lemma CollectsOneMore(s: Stack<Found>, catalogue: Catalogue, init: seq<Ask>, last: Ask, asks: seq<Ask>)
    requires CollectsThrough(s, catalogue, init) && asks == init + [last]
    ensures CollectsThrough(s, catalogue, asks)
  {
    SnocAsks(s, init, last);
    CollectedThrough(s, catalogue, last);
    AnsweredInit(s, catalogue, init, last);
    U.CollectSnoc(catalogue, Queries(s, init), U.Query(last.text, Through(s, last.loop)));
    U.AllBooksSnoc(catalogue, AskTexts(init), last.text);
  }

  lemma CollectsNone(s: Stack<Found>, catalogue: Catalogue)
    ensures CollectsThrough(s, catalogue, [])
  {
  }

  lemma {:induction false} CollectThroughStack(s: Stack<Found>, catalogue: Catalogue, asks: seq<Ask>)
    ensures CollectsThrough(s, catalogue, asks)
  {
    if asks == [] {
      CollectsNone(s, catalogue);
    } else {
      CollectThroughStack(s, catalogue, asks[..|asks| - 1]);
      InitLast(asks);
      CollectsOneMore(s, catalogue, asks[..|asks| - 1], asks[|asks| - 1], asks);
    }
  }

  /** One upload whose searches went through the stack: when they were all answered and its scope
      commits, the table has gained exactly the truncated keys of the search service's books, and
      otherwise nothing has changed, whatever the cache held and whoever else was served. */
  lemma UploadThroughStack(printable: CodePoint -> bool, up: Upstream, es: seq<StackEvent<Found>>,
                           u: Uow, asks: seq<Ask>, faults: Faults)
    requires AllObey(printable, r => SearchOutcome(up, r), es)
    requires forall i :: 0 <= i < |asks| ==> Asks(Moves(printable, Empty(), es), asks[i])
    requires AtRest(u) && Valid(u.committed.books)
    ensures
      var s, books := Moves(printable, Empty<Found>(), es), U.AllBooks(up.docs, AskTexts(asks));
      var m := U.Message(Queries(s, asks), faults);
      var (v, raised) := U.Handle(u, up.docs, m);
      && U.ServesAll(up.docs, m.queries)
      && (U.Reaches(u, up.docs, m) ==> AllAnswered(s, up.docs, asks))
      && v.committed == (if U.Reaches(u, up.docs, m)
                         then u.committed.(books := SaveAll(u.committed.books, books)) else u.committed)
      && (raised.None? ==> AllAnswered(s, up.docs, asks)
                           && LiveKeys(v.committed.books) == LiveKeys(u.committed.books) + Contents(books))
      && (raised.None? <==> U.Reaches(u, up.docs, m) && faults.commit == Committed && !faults.close)
      && (!AllAnswered(s, up.docs, asks) ==> raised == Some(SearchFailed))
  {
    StackServesMessages(printable, up, es, asks);
    UploadOfAnswers(Moves(printable, Empty<Found>(), es), up.docs, u, asks, faults);
  }

  lemma UploadOfAnswers(s: Stack<Found>, catalogue: Catalogue, u: Uow, asks: seq<Ask>, faults: Faults)
    requires AtRest(u) && Valid(u.committed.books)
    ensures
      var books := U.AllBooks(catalogue, AskTexts(asks));
      var m := U.Message(Queries(s, asks), faults);
      var (v, raised) := U.Handle(u, catalogue, m);
      && (U.Reaches(u, catalogue, m) ==> AllAnswered(s, catalogue, asks))
      && v.committed == (if U.Reaches(u, catalogue, m)
                         then u.committed.(books := SaveAll(u.committed.books, books)) else u.committed)
      && (raised.None? ==> AllAnswered(s, catalogue, asks)
                           && LiveKeys(v.committed.books) == LiveKeys(u.committed.books) + Contents(books))
      && (raised.None? <==> U.Reaches(u, catalogue, m) && faults.commit == Committed && !faults.close)
      && (!AllAnswered(s, catalogue, asks) ==> raised == Some(SearchFailed))
  {
    var m := U.Message(Queries(s, asks), faults);
    CollectThroughStack(s, catalogue, asks);
    U.HandleDelivers(u, catalogue, m);
    assert U.Texts(m.queries) == AskTexts(asks);
    SaveAllAdds(u.committed.books, U.AllBooks(catalogue, AskTexts(asks)));
  }
}
