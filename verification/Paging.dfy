/** The ordered listing of live books and its pages. */
module Paging {
  import opened Prelude
  import opened Slices
  import opened Books

  datatype Book = Book(id: BookId, content: Content)

  ghost predicate IsSmallest(m: BookId, ids: set<BookId>) {
    m in ids && forall x :: x in ids ==> m <= x
  }

  lemma {:induction false} FindSmallest(ids: set<BookId>) returns (m: BookId)
    requires ids != {}
    ensures IsSmallest(m, ids)
  {
    var first :| first in ids;
    var rest := ids - {first};
    if rest == {} {
      assert ids == {first};
      m := first;
    } else {
      var n := FindSmallest(rest);
      m := if first < n then first else n;
      assert forall x :: x in ids ==> x == first || x in rest;
    }
  }

  lemma SmallestExists(ids: set<BookId>)
    requires ids != {}
    ensures exists m :: m in ids && forall x :: x in ids ==> m <= x
  {
    var m := FindSmallest(ids);
    assert IsSmallest(m, ids);
  }

  function Smallest(ids: set<BookId>): (m: BookId)
    requires ids != {}
    ensures m in ids && forall x :: x in ids ==> m <= x
  {
    SmallestExists(ids);
    var m :| m in ids && forall x :: x in ids ==> m <= x;
    m
  }

  /** ORDER BY id */
  function Ascending(ids: set<BookId>): seq<BookId> {
    if ids == {} then [] else [Smallest(ids)] + Ascending(ids - {Smallest(ids)})
  }

  /** The rows a listing without limit would return. */
  function Listing(t: Table): (books: seq<Book>)
    ensures |books| == |Ascending(LiveIds(t))|
  {
    var ids := Ascending(LiveIds(t));
    AscendingSorts(LiveIds(t));
    seq(|ids|, i requires 0 <= i < |ids| =>
      assert ids[i] in ids;
      Book(ids[i], t.rows[ids[i]].content))
  }

  function FetchList(t: Table, limit: nat, offset: nat): seq<Book> {
    Slice(Listing(t), offset, limit)
  }

  function CountLive(t: Table): nat {
    |LiveIds(t)|
  }

  lemma {:induction false} AscendingSorts(ids: set<BookId>)
    ensures forall i, j :: 0 <= i < j < |Ascending(ids)| ==> Ascending(ids)[i] < Ascending(ids)[j]
    ensures forall id :: id in Ascending(ids) <==> id in ids
    ensures |Ascending(ids)| == |ids|
  {
    if ids != {} {
      var m := Smallest(ids);
      AscendingSorts(ids - {m});
      Prepended(m, ids - {m}, Ascending(ids - {m}));
      assert ids == {m} + (ids - {m});
    }
  }

  lemma Prepended(m: BookId, ids: set<BookId>, rest: seq<BookId>)
    requires m !in ids && forall x :: x in ids ==> m <= x
    requires forall i, j :: 0 <= i < j < |rest| ==> rest[i] < rest[j]
    requires forall id :: id in rest <==> id in ids
    ensures forall i, j :: 0 <= i < j < |[m] + rest| ==> ([m] + rest)[i] < ([m] + rest)[j]
    ensures forall id :: id in [m] + rest <==> id in {m} + ids
  {
    var all := [m] + rest;
    forall i, j | 0 <= i < j < |all| ensures all[i] < all[j] {
      assert rest[j - 1] in rest;
    }
  }

  /** On a fixed table the pages at offsets 0, limit, 2*limit, ... up to the end concatenate to all
      live books in strictly increasing id order, each once, as many as are counted. */
  lemma PagesPartition(t: Table, limit: nat, pages: seq<seq<Book>>)
    requires limit > 0 && |pages| >= Count(CountLive(t), limit)
    requires forall i :: 0 <= i < |pages| ==> pages[i] == FetchList(t, limit, Offset(i, limit))
    ensures
      var all := Flatten(pages);
      && |all| == CountLive(t)
      && (forall i, j :: 0 <= i < j < |all| ==> all[i].id < all[j].id)
      && (forall id :: id in View(t) <==> exists i :: 0 <= i < |all| && all[i].id == id)
      && (forall i :: 0 <= i < |all| ==> all[i].id in View(t) && all[i].content == View(t)[all[i].id])
      && (forall i :: 0 <= i < |pages| ==> |pages[i]| <= limit)
  {
    var ids := Ascending(LiveIds(t));
    AscendingSorts(LiveIds(t));
    OffsetWithin(|pages|, |ids|, limit);
    SlicesCover(Listing(t), limit, pages);
    ListingIsLive(t);
  }

  lemma ListingIsLive(t: Table)
    ensures
      var all := Listing(t);
      && |all| == CountLive(t)
      && (forall i, j :: 0 <= i < j < |all| ==> all[i].id < all[j].id)
      && (forall id :: id in View(t) <==> exists i :: 0 <= i < |all| && all[i].id == id)
      && (forall i :: 0 <= i < |all| ==> all[i].id in View(t) && all[i].content == View(t)[all[i].id])
  {
    var ids := Ascending(LiveIds(t));
    var all := Listing(t);
    AscendingSorts(LiveIds(t));
    forall i | 0 <= i < |all|
      ensures all[i].id == ids[i] && all[i].id in View(t) && all[i].content == View(t)[all[i].id]
    {
      assert ids[i] in ids;
    }
    forall id | id in View(t) ensures exists i :: 0 <= i < |all| && all[i].id == id {
      assert id in LiveIds(t) && id in ids;
      var i :| 0 <= i < |ids| && ids[i] == id;
      assert all[i].id == id;
    }
  }

  // ---- the page at any offset ----

  function Smaller(ids: set<BookId>, id: BookId): set<BookId> {
    set other | other in ids && other < id
  }

  /** How many live books come before this one by id. */
  function Rank(t: Table, id: BookId): nat {
    |Smaller(LiveIds(t), id)|
  }

  function Elements(ids: seq<BookId>): set<BookId> {
    set i | 0 <= i < |ids| :: ids[i]
  }

  lemma ElementsSnoc(ids: seq<BookId>, id: BookId)
    ensures Elements(ids + [id]) == Elements(ids) + {id}
  {
    var all := ids + [id];
    forall x | x in Elements(ids) + {id} ensures x in Elements(all) {
      if x == id {
        assert all[|ids|] == x;
      } else {
        var i :| 0 <= i < |ids| && ids[i] == x;
        assert all[i] == x;
      }
    }
  }

  lemma {:induction false} DistinctElements(ids: seq<BookId>)
    requires forall i, j :: 0 <= i < j < |ids| ==> ids[i] < ids[j]
    ensures |Elements(ids)| == |ids|
  {
    if ids != [] {
      var init, last := ids[..|ids| - 1], ids[|ids| - 1];
      DistinctElements(init);
      ElementsSnoc(init, last);
      assert ids == init + [last];
      assert last !in Elements(init);
    }
  }

  lemma SmallerIds(ids: seq<BookId>, all: set<BookId>, i: nat)
    requires i < |ids| && forall j, k :: 0 <= j < k < |ids| ==> ids[j] < ids[k]
    requires forall id :: id in ids <==> id in all
    ensures Smaller(all, ids[i]) == Elements(ids[..i])
  {
    forall other | other in all && other < ids[i] ensures other in Elements(ids[..i]) {
      var j :| 0 <= j < |ids| && ids[j] == other;
      assert j < i && ids[..i][j] == other;
    }
    forall other | other in Elements(ids[..i]) ensures other in all && other < ids[i] {
      var j :| 0 <= j < i && ids[..i][j] == other;
      assert ids[j] in ids;
    }
  }

  /** A book's place in the listing is its rank. */
  lemma ListedAtRank(t: Table, i: nat)
    requires i < |Listing(t)|
    ensures Rank(t, Listing(t)[i].id) == i
  {
    var ids := Ascending(LiveIds(t));
    AscendingSorts(LiveIds(t));
    SmallerIds(ids, LiveIds(t), i);
    DistinctElements(ids[..i]);
  }

  ghost predicate Shows(books: seq<Book>, book: Book) {
    exists i :: 0 <= i < |books| && books[i] == book
  }

  predicate IsLiveBook(t: Table, book: Book) {
    IsLive(t, book.id) && book.content == t.rows[book.id].content
  }

  lemma ListedIsLive(t: Table, k: nat)
    requires k < |Listing(t)|
    ensures IsLiveBook(t, Listing(t)[k])
  {
    AscendingSorts(LiveIds(t));
    assert Ascending(LiveIds(t))[k] in Ascending(LiveIds(t));
  }

  lemma LiveIsListed(t: Table, book: Book) returns (k: nat)
    requires IsLiveBook(t, book)
    ensures k < |Listing(t)| && Listing(t)[k] == book
  {
    var ids := Ascending(LiveIds(t));
    AscendingSorts(LiveIds(t));
    assert book.id in LiveIds(t);
    k :| 0 <= k < |ids| && ids[k] == book.id;
  }

  lemma PageShows(t: Table, limit: nat, offset: nat, book: Book)
    ensures Shows(FetchList(t, limit, offset), book) <==>
      IsLiveBook(t, book) && offset <= Rank(t, book.id) < offset + limit
  {
    var all, page := Listing(t), FetchList(t, limit, offset);
    if Shows(page, book) {
      var i :| 0 <= i < |page| && page[i] == book;
      assert all[offset + i] == book;
      ListedIsLive(t, offset + i);
      ListedAtRank(t, offset + i);
    }
    if IsLiveBook(t, book) && offset <= Rank(t, book.id) < offset + limit {
      var k := LiveIsListed(t, book);
      ListedAtRank(t, k);
      assert page[k - offset] == book;
    }
  }

  /** A page at any offset and limit shows, by increasing id, exactly the live books whose rank by id is
      in its range. */
  lemma PageIsRankRange(t: Table, limit: nat, offset: nat)
    ensures
      var page := FetchList(t, limit, offset);
      && (forall i, j :: 0 <= i < j < |page| ==> page[i].id < page[j].id)
      && (forall book :: Shows(page, book) <==>
            IsLiveBook(t, book) && offset <= Rank(t, book.id) < offset + limit)
  {
    ListingIsLive(t);
    forall book
      ensures Shows(FetchList(t, limit, offset), book) <==>
        IsLiveBook(t, book) && offset <= Rank(t, book.id) < offset + limit
    {
      PageShows(t, limit, offset, book);
    }
  }
}
