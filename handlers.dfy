/** The six request handlers over the shared, ordered sequence of records.
    The id generator and the clock are parameters of the handlers that use
    them; the HTTP toolkit is replaced by the returned `Response`. */
module Handlers {
  import opened Books
  import opened Store
  import opened Queries

  class BookShelf {
    /** The shared `books` array, in insertion order. */
    var books: seq<Book>

    constructor ()
      ensures books == []
    {
      books := [];
    }

    /** Create: reject an absent name, then a read page beyond the page
        count; otherwise append the new record and answer 201 only when its
        id is now carried by exactly one record. */
    method AddBookHandler(p: Payload, id: string, now: string) returns (r: Response)
      modifies this
      ensures p.name.None? ==>
                books == old(books) && r == Response(Fail, 400, Some(AddNameMissing), NoData)
      ensures p.name.Some? && p.readPage > p.pageCount ==>
                books == old(books) && r == Response(Fail, 400, Some(AddPagesInvalid), NoData)
      ensures Acceptable(p) ==> books == old(books) + [NewBook(p, id, now)]
      ensures Acceptable(p) && (forall k :: 0 <= k < |old(books)| ==> old(books)[k].id != id) ==>
                r == Response(Success, 201, Some(AddSucceeded), BookIdData(id))
      ensures Acceptable(p) && (exists k :: 0 <= k < |old(books)| && old(books)[k].id == id) ==>
                r == Response(Error, 500, Some(AddFailed), NoData)
    {
      if p.name.None? {
        return Response(Fail, 400, Some(AddNameMissing), NoData);
      }
      if p.readPage > p.pageCount {
        return Response(Fail, 400, Some(AddPagesInvalid), NoData);
      }
      var newBook := NewBook(p, id, now);
      AppendCountOneIff(books, newBook);
      books := books + [newBook];
      var success := CountId(books, id) == 1;
      if success {
        r := Response(Success, 201, Some(AddSucceeded), BookIdData(id));
      } else {
        r := Response(Error, 500, Some(AddFailed), NoData);
      }
    }

    /** List, flag-array variant: one flag per record, cleared by a pass for
        each query parameter present, then the flagged records summarised. */
    method GetAllBooksHandler(q: Query) returns (r: Response)
      ensures r == Response(Success, 200, None, BooksData(Listing(books, EligibleFor(q))))
    {
      var all := books;
      var n := |all|;
      var flags := new bool[n](_ => true);
      if q.name.Some? {
        ClearFailing(flags, all, (b: Book) => NameChecker(b, q.name.value));
      }
      assert forall k :: 0 <= k < n ==> flags[k] == NamePass(all[k], q);
      if q.reading.Some? {
        ClearFailing(flags, all, (b: Book) => ReadingChecker(b, q.reading.value));
      }
      assert forall k :: 0 <= k < n ==> flags[k] == (NamePass(all[k], q) && ReadingPass(all[k], q));
      if q.finished.Some? {
        ClearFailing(flags, all, (b: Book) => FinishedChecker(b, q.finished.value));
      }
      assert forall k :: 0 <= k < n ==> flags[k] == EligibleFor(q)(all[k]);
      var data := CollectFlagged(flags, all, EligibleFor(q));
      r := Response(Success, 200, None, BooksData(data));
    }

    /** List, filter/forEach variant: the records `conditionChecker` keeps,
        summarised one by one. */
    method GetAllBooksWithQueryHandler(q: Query) returns (r: Response)
      ensures r == Response(Success, 200, None, BooksData(Listing(books, ConditionFor(q))))
    {
      var filtered := Filter(books, ConditionFor(q));
      var data: seq<BookSummary> := [];
      var i := 0;
      while i < |filtered|
        invariant 0 <= i <= |filtered|
        invariant data == Project(filtered[..i])
      {
        assert filtered[..i + 1] == filtered[..i] + [filtered[i]];
        ProjectStep(filtered[..i], filtered[i]);
        data := data + [Summarize(filtered[i])];
        i := i + 1;
      }
      assert filtered[..|filtered|] == filtered;
      r := Response(Success, 200, None, BooksData(data));
    }

    /** Get: the first record carrying `bookId`, or 404. */
    function GetBookByIdHandler(bookId: string): (r: Response)
      reads this
      ensures r.code == 200 <==> exists k :: 0 <= k < |books| && books[k].id == bookId
      ensures r.code == 200 ==>
                r.status == Success && r.message == None && r.data.BookData?
                && exists k :: 0 <= k < |books| && books[k] == r.data.book && books[k].id == bookId
                                && forall j :: 0 <= j < k ==> books[j].id != bookId
      ensures r.code != 200 ==> r == Response(Fail, 404, Some(GetNotFound), NoData)
    {
      var index := FindIndex(books, bookId);
      if index != -1 then Response(Success, 200, None, BookData(books[index]))
      else Response(Fail, 404, Some(GetNotFound), NoData)
    }

    /** Update: both payload checks come before the lookup; a found record
        is replaced in place by the spread of `Edited`. */
    method EditBookByIdHandler(bookId: string, p: Payload, now: string) returns (r: Response)
      modifies this
      ensures p.name.None? ==>
                books == old(books) && r == Response(Fail, 400, Some(EditNameMissing), NoData)
      ensures p.name.Some? && p.readPage > p.pageCount ==>
                books == old(books) && r == Response(Fail, 400, Some(EditPagesInvalid), NoData)
      ensures Acceptable(p) && FindIndex(old(books), bookId) == -1 ==>
                books == old(books) && r == Response(Fail, 404, Some(EditNotFound), NoData)
      ensures Acceptable(p) && FindIndex(old(books), bookId) != -1 ==>
                var i := FindIndex(old(books), bookId);
                books == old(books)[i := Edited(old(books)[i], p, now)]
                && r == Response(Success, 200, Some(EditSucceeded), NoData)
    {
      if p.name.None? {
        return Response(Fail, 400, Some(EditNameMissing), NoData);
      }
      if p.readPage > p.pageCount {
        return Response(Fail, 400, Some(EditPagesInvalid), NoData);
      }
      var index := FindIndex(books, bookId);
      if index != -1 {
        books := books[index := Edited(books[index], p, now)];
        return Response(Success, 200, Some(EditSucceeded), NoData);
      }
      r := Response(Fail, 404, Some(EditNotFound), NoData);
    }

    /** Delete: the first record carrying `bookId` is spliced out, or 404. */
    method DeleteBookByIdHandler(bookId: string) returns (r: Response)
      modifies this
      ensures FindIndex(old(books), bookId) == -1 ==>
                books == old(books) && r == Response(Fail, 404, Some(DeleteNotFound), NoData)
      ensures FindIndex(old(books), bookId) != -1 ==>
                books == RemoveAt(old(books), FindIndex(old(books), bookId))
                && r == Response(Success, 200, Some(DeleteSucceeded), NoData)
    {
      var index := FindIndex(books, bookId);
      if index != -1 {
        books := RemoveAt(books, index);
        return Response(Success, 200, Some(DeleteSucceeded), NoData);
      }
      r := Response(Fail, 404, Some(DeleteNotFound), NoData);
    }
  }

  /** The last `forEach` of the flag-array handler: the summary of every
      record whose flag is set, in store order. */
  method CollectFlagged(flags: array<bool>, books: seq<Book>, keep: Book -> bool) returns (data: seq<BookSummary>)
    requires flags.Length == |books|
    requires forall k :: 0 <= k < |books| ==> flags[k] == keep(books[k])
    ensures data == Listing(books, keep)
  {
    data := [];
    var i := 0;
    while i < |books|
      invariant 0 <= i <= |books|
      invariant data == Listing(books[..i], keep)
    {
      ListingStep(books, i, keep);
      if flags[i] {
        data := data + [Summarize(books[i])];
      }
      i := i + 1;
    }
    assert books[..|books|] == books;
  }

  /** One `forEach` pass of the flag-array handler: the flag of every record
      that fails `pass` is cleared; the other flags are left as they were. */
  method ClearFailing(flags: array<bool>, books: seq<Book>, pass: Book -> bool)
    requires flags.Length == |books|
    modifies flags
    ensures forall k :: 0 <= k < |books| ==> flags[k] == (old(flags[k]) && pass(books[k]))
  {
    var i := 0;
    while i < |books|
      invariant 0 <= i <= |books|
      invariant forall k :: 0 <= k < i ==> flags[k] == (old(flags[k]) && pass(books[k]))
      invariant forall k :: i <= k < |books| ==> flags[k] == old(flags[k])
    {
      if !pass(books[i]) {
        flags[i] := false;
      }
      i := i + 1;
    }
  }

  /** A record the create handler reports as created is what a following
      get returns: it is found at the end of the store, it carries every
      submitted field, and `finished` agrees with its pages. */
  lemma CreatedRecordRoundTrips(books: seq<Book>, p: Payload, id: string, now: string)
    requires Acceptable(p) && forall k :: 0 <= k < |books| ==> books[k].id != id
    ensures var s := books + [NewBook(p, id, now)];
            FindIndex(s, id) == |books| && PayloadOf(s[|books|]) == p && FinishedConsistent(s[|books|])
  {
    AppendCountOneIff(books, NewBook(p, id, now));
    AppendThenFind(books, NewBook(p, id, now));
  }

  /** The create, get, update, get, delete, get sequence on a fresh shelf,
      with a book of 100 pages read to the end and then edited back to 50
      read pages. The update keeps `finished` set. */
  method Lifecycle(id: string, t1: string, t2: string) returns (codes: seq<int>, finishedAfterEdit: bool)
    ensures codes == [201, 200, 200, 200, 200, 404]
    ensures finishedAfterEdit
  {
    var shelf := new BookShelf();
    var p := Payload(Some("Go"), 2020, "author", "summary", "publisher", 100, 100, false);
    var added := shelf.AddBookHandler(p, id, t1);
    var got := shelf.GetBookByIdHandler(id);
    var edited := shelf.EditBookByIdHandler(id, p.(readPage := 50), t2);
    var gotAgain := shelf.GetBookByIdHandler(id);
    finishedAfterEdit := gotAgain.data.book.finished;
    var deleted := shelf.DeleteBookByIdHandler(id);
    var gone := shelf.GetBookByIdHandler(id);
    codes := [added.code, got.code, edited.code, gotAgain.code, deleted.code, gone.code];
  }
}
