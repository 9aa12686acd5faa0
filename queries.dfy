/** The filters of the two list handlers and the list they return. */
module Queries {
  import opened Books
  import opened Store
  import opened Text

  /** The numeric value JavaScript's loose equality gives a query string when
      it compares it with a boolean: `"1"` is `Numeric(1)`, `"0"` and `""` are
      `Numeric(0)`, `"true"` is `NotANumber`. */
  datatype Coerced = Numeric(value: int) | NotANumber

  /** The `name`, `reading` and `finished` query parameters; `None` is an
      absent parameter. */
  datatype Query = Query(name: Option<string>, reading: Option<Coerced>, finished: Option<Coerced>)

  const NoFilter := Query(None, None, None)

  /** `flag == v` with a boolean on the left: both sides become numbers. */
  predicate LooseEquals(flag: bool, v: Coerced)
    ensures LooseEquals(flag, v) ==> v == Numeric(0) || v == Numeric(1)
    ensures v == Numeric(1) ==> (LooseEquals(flag, v) <==> flag)
    ensures v == Numeric(0) ==> (LooseEquals(flag, v) <==> !flag)
  {
    v == Numeric(if flag then 1 else 0)
  }

  // The checkers of the flag-array handler.

  predicate NameChecker(b: Book, name: string)
    ensures NameChecker(b, name) ==> |name| <= |b.name|
    ensures Lower(name) == Lower(b.name) ==> NameChecker(b, name)
  {
    Includes(Lower(b.name), Lower(name))
  }

  predicate ReadingChecker(b: Book, v: Coerced)
    ensures ReadingChecker(b, v) <==> (b.reading && v == Numeric(1)) || (!b.reading && v == Numeric(0))
  {
    LooseEquals(b.reading, v)
  }

  predicate FinishedChecker(b: Book, v: Coerced)
    ensures FinishedChecker(b, v) <==> (b.finished && v == Numeric(1)) || (!b.finished && v == Numeric(0))
  {
    LooseEquals(b.finished, v)
  }

  /** A record survives the pass for each query parameter that is present. */
  predicate NamePass(b: Book, q: Query) {
    q.name.Some? ==> NameChecker(b, q.name.value)
  }

  predicate ReadingPass(b: Book, q: Query) {
    q.reading.Some? ==> ReadingChecker(b, q.reading.value)
  }

  predicate FinishedPass(b: Book, q: Query) {
    q.finished.Some? ==> FinishedChecker(b, q.finished.value)
  }

  /** The flag left `true` for a record after all three clearing passes. */
  predicate Eligible(b: Book, q: Query) {
    NamePass(b, q) && ReadingPass(b, q) && FinishedPass(b, q)
  }

  function EligibleFor(q: Query): Book -> bool {
    (b: Book) => Eligible(b, q)
  }

  /** `conditionChecker` of the filter/forEach handler: only the record's
      name is lowered, the query name is used as given. */
  predicate ConditionChecker(b: Book, q: Query)
    ensures q == NoFilter ==> ConditionChecker(b, q)
    ensures ConditionChecker(b, q) && q.name.Some? ==> |q.name.value| <= |b.name|
    ensures q.reading.Some? && q.reading.value.NotANumber? ==> !ConditionChecker(b, q)
    ensures q.finished.Some? && q.finished.value.NotANumber? ==> !ConditionChecker(b, q)
  {
    var nameMatches := q.name.Some? ==> Includes(Lower(b.name), q.name.value);
    var readingMatches := q.reading.Some? ==> LooseEquals(b.reading, q.reading.value);
    var finishedMatches := q.finished.Some? ==> LooseEquals(b.finished, q.finished.value);
    nameMatches && readingMatches && finishedMatches
  }

  function ConditionFor(q: Query): Book -> bool {
    (b: Book) => ConditionChecker(b, q)
  }

  function Summarize(b: Book): BookSummary {
    BookSummary(b.id, b.name, b.publisher)
  }

  /** The list view of a sequence of records, one summary per record. */
  function Project(books: seq<Book>): (r: seq<BookSummary>)
    ensures |r| == |books|
    ensures forall k :: 0 <= k < |books| ==> r[k] == Summarize(books[k])
  {
    if books == [] then [] else Project(books[..|books| - 1]) + [Summarize(books[|books| - 1])]
  }

  /** What a list handler returns: the summaries of the kept records, in
      store order. */
  function Listing(books: seq<Book>, keep: Book -> bool): (r: seq<BookSummary>)
    ensures |r| <= |books|
  {
    Project(Filter(books, keep))
  }

  lemma ProjectStep(books: seq<Book>, x: Book)
    ensures Project(books + [x]) == Project(books) + [Summarize(x)]
  {
    assert (books + [x])[..|books|] == books;
  }

  /** Extending the scanned prefix by one record extends the listing by that
      record's summary exactly when it is kept. */
  lemma ListingStep(books: seq<Book>, i: int, keep: Book -> bool)
    requires 0 <= i < |books|
    ensures Listing(books[..i + 1], keep)
         == Listing(books[..i], keep) + (if keep(books[i]) then [Summarize(books[i])] else [])
  {
    assert books[..i + 1] == books[..i] + [books[i]];
    FilterStep(books[..i], books[i], keep);
    if keep(books[i]) {
      ProjectStep(Filter(books[..i], keep), books[i]);
    }
  }

  /** The listing never holds more entries than the store, and every entry
      summarises a stored record that passes the filter. */
  lemma ListingSound(books: seq<Book>, keep: Book -> bool)
    ensures |Listing(books, keep)| <= |books|
    ensures forall k :: 0 <= k < |Listing(books, keep)| ==>
              exists j :: 0 <= j < |books| && keep(books[j]) && Listing(books, keep)[k] == Summarize(books[j])
  {
    var f := Filter(books, keep);
    forall k | 0 <= k < |f| ensures exists j :: 0 <= j < |books| && keep(books[j]) && Project(f)[k] == Summarize(books[j]) {
      var j :| 0 <= j < |books| && books[j] == f[k];
      assert keep(books[j]) && Project(f)[k] == Summarize(books[j]);
    }
  }

  /** Every stored record that passes the filter is listed. */
  lemma ListingComplete(books: seq<Book>, keep: Book -> bool, j: int)
    requires 0 <= j < |books| && keep(books[j])
    ensures Summarize(books[j]) in Listing(books, keep)
  {
    FilterMember(books, keep, books[j]);
    var f := Filter(books, keep);
    var k :| 0 <= k < |f| && f[k] == books[j];
    assert Project(f)[k] == Summarize(books[j]);
  }

  /** Without query parameters both handlers list every record. */
  lemma NoFilterListsAll(books: seq<Book>)
    ensures Listing(books, EligibleFor(NoFilter)) == Project(books)
    ensures Listing(books, ConditionFor(NoFilter)) == Project(books)
  {
    FilterAll(books, EligibleFor(NoFilter));
    FilterAll(books, ConditionFor(NoFilter));
  }

  /** The two handlers decide alike on a record when the query name is absent
      or already lower case. */
  lemma CheckersAgree(b: Book, q: Query)
    requires q.name.None? || Lower(q.name.value) == q.name.value
    ensures Eligible(b, q) == ConditionChecker(b, q)
  {
  }

  /** Hence the two handlers return the same list for such queries. */
  lemma VariantsAgree(books: seq<Book>, q: Query)
    requires q.name.None? || Lower(q.name.value) == q.name.value
    ensures Listing(books, EligibleFor(q)) == Listing(books, ConditionFor(q))
  {
    forall k | 0 <= k < |books| ensures EligibleFor(q)(books[k]) == ConditionFor(q)(books[k]) {
      CheckersAgree(books[k], q);
    }
    FilterCongruent(books, EligibleFor(q), ConditionFor(q));
  }

  /** The flag-array handler's name test ignores the case of the query. */
  lemma NameCheckerIgnoresQueryCase(b: Book, name: string)
    ensures NameChecker(b, name) == NameChecker(b, Lower(name))
  {
    LowerIdempotent(name);
  }

  /** A query name holding a capital letter matches no record in the
      filter/forEach handler, whatever the other parameters are. */
  lemma CapitalQueryListsNothing(books: seq<Book>, q: Query, k: int)
    requires q.name.Some? && 0 <= k < |q.name.value| && IsUpper(q.name.value[k])
    ensures Listing(books, ConditionFor(q)) == []
  {
    forall j | 0 <= j < |books| ensures !ConditionFor(q)(books[j]) {
      NoUpperPatternInLowered(books[j].name, q.name.value, k);
    }
    FilterNone(books, ConditionFor(q));
  }

  /** A `reading` or `finished` value that is not a number (such as the
      string "true") matches no record in either handler. */
  lemma NonNumericFlagListsNothing(books: seq<Book>, q: Query)
    requires q.reading == Some(NotANumber) || q.finished == Some(NotANumber)
    ensures Listing(books, EligibleFor(q)) == []
    ensures Listing(books, ConditionFor(q)) == []
  {
    FilterNone(books, EligibleFor(q));
    FilterNone(books, ConditionFor(q));
  }

  /** The handlers differ on a capitalised query: the record named "Go" is
      listed for the query name "Go" by the flag-array handler and not by the
      filter/forEach handler. */
  lemma VariantsDiffer(b: Book)
    requires b.name == "Go"
    ensures Listing([b], EligibleFor(Query(Some("Go"), None, None))) == [Summarize(b)]
    ensures Listing([b], ConditionFor(Query(Some("Go"), None, None))) == []
  {
    var q := Query(Some("Go"), None, None);
    assert Lower("Go") == "go";
    assert StartsWith(Lower(b.name), Lower("Go"));
    assert Eligible(b, q);
    CapitalQueryListsNothing([b], q, 0);
    assert [b][..0] == [];
  }

  lemma FilterOfPair(x: Book, y: Book, keep: Book -> bool)
    ensures Filter([x, y], keep) == (if keep(x) then [x] else []) + (if keep(y) then [y] else [])
  {
    FilterStep([], x, keep);
    FilterStep([x], y, keep);
    assert [] + [x] == [x] && [x] + [y] == [x, y];
  }

  lemma ListingOfPair(x: Book, y: Book, keep: Book -> bool)
    ensures Listing([x, y], keep)
         == (if keep(x) then [Summarize(x)] else []) + (if keep(y) then [Summarize(y)] else [])
  {
    var f := (if keep(x) then [x] else []) + (if keep(y) then [y] else []);
    FilterOfPair(x, y, keep);
    assert Project(f) == (if keep(x) then [Summarize(x)] else []) + (if keep(y) then [Summarize(y)] else []);
  }

  lemma GoRustNames(go: Book, rust: Book)
    requires go.name == "Go" && rust.name == "Rust"
    ensures NameChecker(go, "go") && !NameChecker(rust, "go")
    ensures Includes(Lower(go.name), "go") && !Includes(Lower(rust.name), "go")
  {
    assert Lower("Go") == "go" && Lower("Rust") == "rust" && Lower("go") == "go";
    assert StartsWith("go", "go");
    assert "rust"[1..] == "ust" && "ust"[1..] == "st" && "st"[1..] == "t" && "t"[1..] == "";
    assert !StartsWith("rust", "go") && !StartsWith("ust", "go") && !StartsWith("st", "go");
    assert !StartsWith("t", "go") && !StartsWith("", "go");
  }

  /** Two example records: "Go" (reading, not finished) and "Rust"
      (finished, not reading). The name query `go` lists only "Go" in both
      handlers. */
  lemma GoRustByName(go: Book, rust: Book)
    requires go.name == "Go" && rust.name == "Rust"
    ensures Listing([go, rust], EligibleFor(Query(Some("go"), None, None))) == [Summarize(go)]
    ensures Listing([go, rust], ConditionFor(Query(Some("go"), None, None))) == [Summarize(go)]
  {
    GoRustNames(go, rust);
    ListingOfPair(go, rust, EligibleFor(Query(Some("go"), None, None)));
    ListingOfPair(go, rust, ConditionFor(Query(Some("go"), None, None)));
  }

  /** With the same records: `reading=1` lists only "Go" and
      `reading=0&finished=1` only "Rust". */
  lemma GoRustByFlags(go: Book, rust: Book)
    requires go.reading && !go.finished && !rust.reading && rust.finished
    ensures Listing([go, rust], EligibleFor(Query(None, Some(Numeric(1)), None))) == [Summarize(go)]
    ensures Listing([go, rust], EligibleFor(Query(None, Some(Numeric(0)), Some(Numeric(1))))) == [Summarize(rust)]
  {
    ListingOfPair(go, rust, EligibleFor(Query(None, Some(Numeric(1)), None)));
    ListingOfPair(go, rust, EligibleFor(Query(None, Some(Numeric(0)), Some(Numeric(1)))));
  }

  /** With the same records: no query lists both, while `reading=true`
      lists nothing, since "true" is not a number. */
  lemma GoRustUnfiltered(go: Book, rust: Book)
    requires go.reading && !go.finished && !rust.reading && rust.finished
    ensures Listing([go, rust], EligibleFor(NoFilter)) == [Summarize(go), Summarize(rust)]
    ensures Listing([go, rust], EligibleFor(Query(None, Some(NotANumber), None))) == []
  {
    ListingOfPair(go, rust, EligibleFor(NoFilter));
    ListingOfPair(go, rust, EligibleFor(Query(None, Some(NotANumber), None)));
  }
}
