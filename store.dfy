/** The operations the handlers perform on the ordered sequence of records:
    `findIndex`, `filter`, `splice` of one element, and the uniqueness of ids
    that the create handler checks after its `push`. */
module Store {
  import opened Books

  /** `books.findIndex((book) => book.id === id)`: the first position holding
      `id`, or -1 when there is none. */
  function FindIndex(books: seq<Book>, id: string): (r: int)
    ensures -1 <= r < |books|
    ensures r == -1 <==> forall j :: 0 <= j < |books| ==> books[j].id != id
    ensures r != -1 ==> books[r].id == id && forall j :: 0 <= j < r ==> books[j].id != id
  {
    if books == [] then -1
    else if books[0].id == id then 0
    else
      var k := FindIndex(books[1..], id);
      if k == -1 then -1 else k + 1
  }

  /** `books.filter(keep)`: the records satisfying `keep`, in store order. */
  function Filter(books: seq<Book>, keep: Book -> bool): (r: seq<Book>)
    ensures |r| <= |books|
    ensures forall k :: 0 <= k < |r| ==> keep(r[k]) && r[k] in books
  {
    if books == [] then []
    else
      var last := books[|books| - 1];
      Filter(books[..|books| - 1], keep) + (if keep(last) then [last] else [])
  }

  function HasId(id: string): Book -> bool {
    (b: Book) => b.id == id
  }

  /** `books.filter((book) => book.id === id).length`. */
  function CountId(books: seq<Book>, id: string): (n: nat)
    ensures n <= |books|
  {
    |Filter(books, HasId(id))|
  }

  /** No two records share an id. */
  predicate UniqueIds(books: seq<Book>) {
    forall i, j :: 0 <= i < j < |books| ==> books[i].id != books[j].id
  }

  /** `books.splice(i, 1)`: the record at `i` is dropped, the others shift. */
  function RemoveAt(books: seq<Book>, i: int): (r: seq<Book>)
    requires 0 <= i < |books|
    ensures |r| == |books| - 1
    ensures forall j :: 0 <= j < i ==> r[j] == books[j]
    ensures forall j :: i <= j < |r| ==> r[j] == books[j + 1]
  {
    books[..i] + books[i + 1..]
  }

  lemma FilterStep(books: seq<Book>, x: Book, keep: Book -> bool)
    ensures Filter(books + [x], keep) == Filter(books, keep) + (if keep(x) then [x] else [])
  {
    assert (books + [x])[..|books|] == books;
  }

  /** Filtering distributes over concatenation, so the result keeps the
      relative order of the store. */
  lemma {:induction false} FilterAppend(s: seq<Book>, t: seq<Book>, keep: Book -> bool)
    ensures Filter(s + t, keep) == Filter(s, keep) + Filter(t, keep)
    decreases |t|
  {
    if t == [] {
      assert s + t == s;
    } else {
      var init, last := t[..|t| - 1], t[|t| - 1];
      assert t == init + [last];
      assert s + t == (s + init) + [last];
      FilterAppend(s, init, keep);
      FilterStep(s + init, last, keep);
      FilterStep(init, last, keep);
    }
  }

  /** A record is kept exactly when it is stored and satisfies `keep`. */
  lemma {:induction false} FilterMember(books: seq<Book>, keep: Book -> bool, x: Book)
    ensures x in Filter(books, keep) <==> x in books && keep(x)
    decreases |books|
  {
    if books != [] {
      var init, last := books[..|books| - 1], books[|books| - 1];
      assert books == init + [last];
      FilterMember(init, keep, x);
    }
  }

  /** Filtering with two tests that agree on every stored record gives the
      same sequence. */
  lemma {:induction false} FilterCongruent(books: seq<Book>, f: Book -> bool, g: Book -> bool)
    requires forall k :: 0 <= k < |books| ==> f(books[k]) == g(books[k])
    ensures Filter(books, f) == Filter(books, g)
    decreases |books|
  {
    if books != [] {
      FilterCongruent(books[..|books| - 1], f, g);
    }
  }

  /** A test every record passes keeps the whole sequence. */
  lemma {:induction false} FilterAll(books: seq<Book>, keep: Book -> bool)
    requires forall k :: 0 <= k < |books| ==> keep(books[k])
    ensures Filter(books, keep) == books
    decreases |books|
  {
    if books != [] {
      FilterAll(books[..|books| - 1], keep);
    }
  }

  /** A test no record passes keeps nothing. */
  lemma {:induction false} FilterNone(books: seq<Book>, keep: Book -> bool)
    requires forall k :: 0 <= k < |books| ==> !keep(books[k])
    ensures Filter(books, keep) == []
    decreases |books|
  {
    if books != [] {
      FilterNone(books[..|books| - 1], keep);
    }
  }

  lemma CountIdStep(books: seq<Book>, x: Book, id: string)
    ensures CountId(books + [x], id) == CountId(books, id) + (if x.id == id then 1 else 0)
  {
    FilterStep(books, x, HasId(id));
  }

  /** No record carries `id` exactly when the count of `id` is zero. */
  lemma {:induction false} CountIdZeroIff(books: seq<Book>, id: string)
    ensures CountId(books, id) == 0 <==> forall k :: 0 <= k < |books| ==> books[k].id != id
    decreases |books|
  {
    if books != [] {
      var init, last := books[..|books| - 1], books[|books| - 1];
      assert books == init + [last];
      CountIdZeroIff(init, id);
      CountIdStep(init, last, id);
    }
  }

  /** After appending `b`, `b.id` is carried exactly once if and only if no
      record already stored carried it. */
  lemma AppendCountOneIff(books: seq<Book>, b: Book)
    ensures CountId(books + [b], b.id) == 1 <==> forall k :: 0 <= k < |books| ==> books[k].id != b.id
  {
    CountIdStep(books, b, b.id);
    CountIdZeroIff(books, b.id);
  }

  /** Appending to a store with unique ids keeps them unique exactly when the
      post-insert count of the new id is one. */
  lemma AppendUniqueIff(books: seq<Book>, b: Book)
    requires UniqueIds(books)
    ensures UniqueIds(books + [b]) <==> CountId(books + [b], b.id) == 1
  {
    AppendCountOneIff(books, b);
    var s := books + [b];
    if !(forall k :: 0 <= k < |books| ==> books[k].id != b.id) {
      var k :| 0 <= k < |books| && books[k].id == b.id;
      assert s[k].id == s[|books|].id;
    }
  }

  /** When the count check passes, the new record is the one `findIndex`
      finds for its id, at the end of the store. */
  lemma AppendThenFind(books: seq<Book>, b: Book)
    requires CountId(books + [b], b.id) == 1
    ensures FindIndex(books + [b], b.id) == |books|
  {
    AppendCountOneIff(books, b);
    var s := books + [b];
    var r := FindIndex(s, b.id);
    assert s[|books|].id == b.id;
    assert r != -1;
    assert forall j :: 0 <= j < |books| ==> s[j].id != b.id;
    assert !(r < |books|);
  }

  /** With unique ids, `findIndex` of a stored record's id is its position. */
  lemma UniqueFindIndex(books: seq<Book>, i: int)
    requires UniqueIds(books) && 0 <= i < |books|
    ensures FindIndex(books, books[i].id) == i
  {
  }

  /** Replacing a record by one with the same id keeps ids unique and keeps
      the position `findIndex` reports. */
  lemma ReplaceKeepsUnique(books: seq<Book>, i: int, c: Book)
    requires UniqueIds(books) && 0 <= i < |books| && c.id == books[i].id
    ensures UniqueIds(books[i := c])
    ensures FindIndex(books[i := c], c.id) == i
  {
    UniqueFindIndex(books[i := c], i);
  }

  /** Removing a record keeps ids unique. */
  lemma RemoveKeepsUnique(books: seq<Book>, i: int)
    requires UniqueIds(books) && 0 <= i < |books|
    ensures UniqueIds(RemoveAt(books, i))
  {
    var r := RemoveAt(books, i);
    forall a, b | 0 <= a < b < |r| ensures r[a].id != r[b].id {
      var a' := if a < i then a else a + 1;
      var b' := if b < i then b else b + 1;
      assert r[a] == books[a'] && r[b] == books[b'] && a' < b';
    }
  }

  /** With unique ids, once the first record carrying `id` is removed no
      record carries it any more. */
  lemma RemoveFoundIsGone(books: seq<Book>, id: string)
    requires UniqueIds(books) && FindIndex(books, id) != -1
    ensures FindIndex(RemoveAt(books, FindIndex(books, id)), id) == -1
  {
    var i := FindIndex(books, id);
    var r := RemoveAt(books, i);
    forall j | 0 <= j < |r| ensures r[j].id != id {
      if j >= i {
        assert r[j] == books[j + 1];
      }
    }
  }
}
