# Bookshelf handlers — a Dafny model

This project models the request handlers of a small in-memory bookshelf API.
One shared, ordered sequence of book records is held in memory. Six handlers
validate their input and then read or change that sequence:

- create (`addBookHandler`);
- two list handlers, the flag-array one (`getAllBooksHandler`) and the
  filter/forEach one (`getAllBooksWithQueryHandler`);
- get by id (`getBookByIdHandler`);
- update by id (`editBookByIdHandler`);
- delete by id (`deleteBookByIdHandler`).

Each handler returns a `Response`: status (`success`, `fail`, `error`), HTTP
code, optional message and optional data.

Files and modules:

- `text.dfy` — `Text`: ASCII lower-casing and the substring test `includes`.
- `books.dfy` — `Books`: the record, the request payload, the response, the
  message strings, the record built on create (`NewBook`) and the spread
  written on update (`Edited`).
- `store.dfy` — `Store`: `findIndex`, `filter`, one-element `splice` and
  uniqueness of ids, with lemmas on how append, replace and remove affect them.
- `queries.dfy` — `Queries`: the name, reading and finished checkers of both
  list handlers and the list they return (`Listing`), with lemmas that compare
  the two handlers.
- `handlers.dfy` — `Handlers`: class `BookShelf` with field `books: seq<Book>`
  and one member per handler; the flag-clearing pass and the final collection
  loop of the flag-array handler as helper methods; a create/get round-trip
  lemma and a whole-lifecycle method.

The id generator (`nanoid()`) and the clock (`new Date().toISOString()`) are
parameters: `id` and `now`. The id is not assumed fresh. When it is already
stored, the create handler answers 500 and the new record stays appended,
because the push runs before the count check. `AddBookHandler` states both
outcomes.

Facts about the code that the model keeps and that are easy to miss:

- The update handler does not recompute `finished`. The spread keeps the stored
  value (src/handler.js:250-261). `Edited`, `EditLeavesFinishedStale` and
  `Lifecycle` show this: a book read to the end and then edited back to 50 of
  100 pages stays `finished`.
- Only an absent `name` is rejected; the empty string is accepted
  (src/handler.js:19, src/handler.js:226).
- The filter/forEach handler lowers only the record's name, not the query
  (src/handler.js:149), so a query name with a capital letter matches nothing
  (`CapitalQueryListsNothing`). The flag-array handler lowers both
  (src/handler.js:87).
- The `reading` and `finished` filters use loose equality with a boolean
  (src/handler.js:89, 91, 153, 157). The query string `"true"` is not a number
  and equals neither boolean, so `reading=true` lists no record whose
  `reading` was stored as a boolean (`NonNumericFlagListsNothing`,
  `GoRustUnfiltered`); `reading=1` and `reading=0` do match.
- The push at src/handler.js:59 runs before the count check at line 61. A
  generated id that is already stored therefore leaves a duplicate behind the
  500 answer (`AppendUniqueIff`, `AddBookHandler`).

## Model

| member | source | states |
|---|---|---|
| `Text.Lower` | src/handler.js:87 | `toLowerCase` on ASCII: same length, each capital letter lowered, every other character kept |
| `Text.LowerIdempotent` | src/handler.js:87 | lowering twice gives the same string as lowering once |
| `Text.Includes` | src/handler.js:87 | `includes`: some suffix of the string starts with the pattern; a contained pattern is no longer than the string, and a prefix is always contained |
| `Text.IncludesIff` | src/handler.js:87 | the recursive `includes` holds exactly when the pattern occurs at some position of the string |
| `Text.NoUpperPatternInLowered` | src/handler.js:149 | a pattern holding a capital letter is never contained in a lowered string |
| `Books.NewBook` | src/handler.js:39-57 | the created record carries every payload field, the given id and time as both `insertedAt` and `updatedAt`, and `finished == (pageCount == readPage)` |
| `Books.Edited` | src/handler.js:250-261 | the updated record carries every payload field and the new `updatedAt`; `id`, `insertedAt` and `finished` keep their stored values |
| `Books.EditedConsistentIff` | src/handler.js:250-261 | an updated record's `finished` agrees with its pages exactly when the stored flag happens to match the new pages |
| `Books.EditLeavesFinishedStale` | src/handler.js:250-261 | a finished book updated to fewer read pages is still `finished` and no longer agrees with its pages |
| `Store.FindIndex` | src/handler.js:192 | `findIndex` by id: -1 exactly when no record has the id; otherwise an index holding the id with no earlier record holding it |
| `Store.Filter` | src/handler.js:165-166 | `filter`: at most as many records as stored, each kept record satisfies the test and is stored |
| `Store.RemoveAt` | src/handler.js:284 | `splice(i, 1)`: one record shorter, records before `i` unchanged, records after `i` shifted down by one |
| `Store.FilterStep` | src/handler.js:165-166 | filtering a store extended by one record adds that record at the end exactly when it passes |
| `Store.FilterAppend` | src/handler.js:165-166 | filtering distributes over concatenation, so store order is kept |
| `Store.FilterMember` | src/handler.js:165-166 | a record is in the filtered sequence exactly when it is stored and passes the test |
| `Store.FilterCongruent` | src/handler.js:165-166 | two tests that agree on every stored record filter alike |
| `Store.FilterAll` | src/handler.js:165-166 | a test every record passes keeps the whole store |
| `Store.FilterNone` | src/handler.js:165-166 | a test no record passes keeps nothing |
| `Store.CountId` | src/handler.js:61 | `books.filter((book) => book.id === id).length`: the number of records with the id, never more than the store holds |
| `Store.CountIdZeroIff` | src/handler.js:61 | the count of records with an id is zero exactly when no record has that id |
| `Store.AppendCountOneIff` | src/handler.js:59-63 | after the push, the new id is counted exactly once if and only if no record stored before carried it |
| `Store.AppendUniqueIff` | src/handler.js:59-74 | on a store with unique ids, the push keeps them unique exactly when the count check passes |
| `Store.AppendThenFind` | src/handler.js:59-61 | when the count check passes, `findIndex` of the new id is the last position |
| `Store.UniqueFindIndex` | src/handler.js:192 | with unique ids, `findIndex` of a stored record's id is that record's position |
| `Store.ReplaceKeepsUnique` | src/handler.js:245-261 | replacing a record by one with the same id keeps ids unique and keeps the index `findIndex` reports |
| `Store.RemoveKeepsUnique` | src/handler.js:281-284 | removing a record keeps ids unique |
| `Store.RemoveFoundIsGone` | src/handler.js:281-284 | with unique ids, after the found record is spliced out no record has the id |
| `Queries.LooseEquals` | src/handler.js:89 | `flag == value` for a boolean flag: only the numeric values 0 and 1 can match; 1 matches exactly `true`, 0 exactly `false` |
| `Queries.NameChecker` | src/handler.js:87 | `nameChecker`: the lowered query occurs in the lowered record name; a matching query is no longer than the name, and a query equal to the name up to case always matches |
| `Queries.ReadingChecker` | src/handler.js:89 | `readingChecker`: matches a reading record for the value 1 and a non-reading one for the value 0, and nothing else |
| `Queries.FinishedChecker` | src/handler.js:91 | `finishedChecker`: matches a finished record for the value 1 and an unfinished one for the value 0, and nothing else |
| `Queries.ConditionChecker` | src/handler.js:143-161 | `conditionChecker`: the conjunction of the present tests, with the query name used as given; with no query parameter every record is accepted, a matching query name is no longer than the record name, and a non-numeric `reading` or `finished` value accepts no record |
| `Queries.Summarize` | src/handler.js:122-126 | the list entry `{ id, name, publisher }` copied from a record (a definition, no contract) |
| `Queries.Listing` | src/handler.js:120-128 | the list both handlers return: the summaries of the records a test keeps, in store order; it is never longer than the store |
| `Queries.Project` | src/handler.js:120-128 | the list view has one summary (`id`, `name`, `publisher`) per record, in order |
| `Queries.ListingStep` | src/handler.js:120-128 | scanning one more record extends the list by its summary exactly when it is kept |
| `Queries.ListingSound` | src/handler.js:94-128 | the list is no longer than the store and each entry summarises a stored record that passes the filter |
| `Queries.ListingComplete` | src/handler.js:94-128 | every stored record that passes the filter is listed |
| `Queries.NoFilterListsAll` | src/handler.js:94-161 | with no query parameter, both list handlers list every record |
| `Queries.CheckersAgree` | src/handler.js:86-161 | with the query name absent or already lower case, the two handlers' tests agree on every record |
| `Queries.VariantsAgree` | src/handler.js:143-161 | with the query name absent or already lower case, the two list handlers return the same list |
| `Queries.VariantsDiffer` | src/handler.js:149 | for the query name "Go", the flag-array handler lists a record named "Go" and the filter/forEach handler lists nothing |
| `Queries.NameCheckerIgnoresQueryCase` | src/handler.js:87 | the flag-array name test gives the same answer for a query and for its lowered form |
| `Queries.CapitalQueryListsNothing` | src/handler.js:149 | in the filter/forEach handler, a query name with a capital letter lists nothing |
| `Queries.NonNumericFlagListsNothing` | src/handler.js:89-91 | a `reading` or `finished` value that is not a number lists nothing in either handler |
| `Queries.FilterOfPair` | src/handler.js:165-166 | filtering two records keeps each one that passes, in order |
| `Queries.ListingOfPair` | src/handler.js:120-128 | the list of two records holds the summary of each one that passes, in order |
| `Queries.GoRustNames` | src/handler.js:87 | "go" is contained in the lowered "Go" and not in the lowered "Rust" |
| `Queries.GoRustByName` | src/handler.js:143-177 | for records "Go" and "Rust", the name query `go` lists only "Go" in both handlers |
| `Queries.GoRustByFlags` | src/handler.js:105-118 | `reading=1` lists only the reading record; `reading=0&finished=1` lists only the finished one |
| `Queries.GoRustUnfiltered` | src/handler.js:94-128 | no query lists both records in order; `reading=true` lists neither |
| `Handlers.BookShelf.constructor` | src/handler.js:4 | the shelf starts empty |
| `Handlers.BookShelf.AddBookHandler` | src/handler.js:6-84 | absent name: 400, store unchanged; then read page over page count: 400, store unchanged; otherwise the new record is appended, with 201 and the id if the id was free and 500 if it was not |
| `Handlers.BookShelf.GetAllBooksHandler` | src/handler.js:86-138 | with fields of their documented types, always 200 `success` with the summaries of the records passing every present filter, in store order; the store is not changed |
| `Handlers.ClearFailing` | src/handler.js:98-118 | one clearing pass: each flag becomes its old value and whether its record passes the test |
| `Handlers.CollectFlagged` | src/handler.js:120-128 | the collected list is the summary of each flagged record, in store order |
| `Handlers.BookShelf.GetAllBooksWithQueryHandler` | src/handler.js:140-187 | with fields of their documented types, always 200 `success` with the summaries of the records `conditionChecker` keeps, in store order; the store is not changed |
| `Handlers.BookShelf.GetBookByIdHandler` | src/handler.js:189-210 | 200 exactly when some record has the id, and then the data is the first such record; otherwise 404 `fail` with no data |
| `Handlers.BookShelf.EditBookByIdHandler` | src/handler.js:212-276 | absent name, then read page over page count: 400 with the store unchanged, whether or not the id is known; unknown id: 404, store unchanged; otherwise only the first match is replaced by the spread, with 200 |
| `Handlers.BookShelf.DeleteBookByIdHandler` | src/handler.js:278-299 | found at first index `i`: the store becomes the old store without position `i`, with 200; not found: 404 with the store unchanged |
| `Handlers.CreatedRecordRoundTrips` | src/handler.js:39-72 | after a create with a free id, `findIndex` finds the new record last in the store; it carries every submitted field and a consistent `finished` |
| `Handlers.Lifecycle` | src/handler.js:6-299 | on an empty shelf: create 201, get 200, update 200, get 200 with `finished` still set, delete 200, get 404 |

## Left out

- The `h.response(...).code(...)` toolkit is replaced by the `Response` value.
  Serialising it is not modelled.
- `console.log` and the `try`/`catch` are not modelled. The only throw is the
  one after a failed count check, so the `catch` becomes the 500 branch.
- `nanoid()` and `new Date().toISOString()` become the parameters `id` and
  `now`. Timestamps are opaque strings, so "later than" is not modelled.
- Loose equality between a boolean field and a query string is abstracted.
  The query value is its numeric coercion (`Coerced`), and a flag matches
  `Numeric(1)` when true and `Numeric(0)` when false. The conversion from
  string to number is not modelled.
- Field types are not checked by the code: the create and update handlers
  store whatever the JSON body holds (src/handler.js:7-16, 44-57). The model
  gives every field its documented type: string `name`, `author`, `summary`
  and `publisher`, integer `year`, `pageCount` and `readPage`, boolean
  `reading`. It also takes each query parameter to be a single string. Two
  behaviours of the code are therefore not modelled. (a) A body with
  `"reading": "true"` is stored as that string, and `reading=true` then lists
  the record, since `"true" == "true"` (src/handler.js:89, 153). (b) A body
  whose `name` is a number or `null` passes the check at src/handler.js:19 and
  is stored; afterwards every list request with a `name` query throws at
  `book.name.toLowerCase()` (src/handler.js:87, 149) instead of answering 200.
  The "always 200" of `Handlers.BookShelf.GetAllBooksHandler` and
  `Handlers.BookShelf.GetAllBooksWithQueryHandler` holds under these types.
  Strings are sequences of code points, where JavaScript uses UTF-16 code
  units.
- `undefined` and `NaN` in `readPage > pageCount`, and absent fields other than
  `name`, are not modelled. Page counts are present integers.
- `Text.Lower`: lowers ASCII letters only; full Unicode case mapping is not
  modelled. `Queries.CheckersAgree` and `Queries.VariantsAgree` depend on
  this: for the model, "already lower case" means "has no ASCII capital". So
  the query "É" counts as lower case in the model, yet in the code the
  flag-array handler (src/handler.js:87) finds "École" with it and the
  filter/forEach handler (src/handler.js:149) does not.
- The `./books` module is not part of this model. It only exports the shared
  array, which becomes the `books` field, empty at construction.
- Route wiring and the HTTP server are not part of this model.
- Concurrent requests are not modelled. Each handler runs to completion on its
  own.
