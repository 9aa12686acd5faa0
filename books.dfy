/** The book record, the request payload the create and update handlers
    destructure, and the structured response every handler returns. */
module Books {

  datatype Option<T> = None | Some(value: T)

  /** One stored record. `finished`, `id`, `insertedAt` and `updatedAt` are
      assigned by the server; the rest come from the client. Timestamps are
      the ISO 8601 strings the clock produced, kept opaque. */
  datatype Book = Book(
    id: string,
    name: string,
    year: int,
    author: string,
    summary: string,
    publisher: string,
    pageCount: int,
    readPage: int,
    finished: bool,
    reading: bool,
    insertedAt: string,
    updatedAt: string)

  /** The body of a create or update request. Only `name` may be absent. */
  datatype Payload = Payload(
    name: Option<string>,
    year: int,
    author: string,
    summary: string,
    publisher: string,
    pageCount: int,
    readPage: int,
    reading: bool)

  /** The list view of a record: only `id`, `name` and `publisher`. */
  datatype BookSummary = BookSummary(id: string, name: string, publisher: string)

  datatype Status = Success | Fail | Error

  /** The optional `data` member of a response body. */
  datatype Data =
    | NoData
    | BookIdData(bookId: string)
    | BooksData(books: seq<BookSummary>)
    | BookData(book: Book)

  /** A response body together with its HTTP status code. */
  datatype Response = Response(status: Status, code: int, message: Option<string>, data: Data)

  const AddNameMissing := "Gagal menambahkan buku. Mohon isi nama buku"
  const AddPagesInvalid := "Gagal menambahkan buku. readPage tidak boleh lebih besar dari pageCount"
  const AddSucceeded := "Buku berhasil ditambahkan"
  const AddFailed := "Buku gagal ditambahkan"
  const GetNotFound := "Buku tidak ditemukan"
  const EditNameMissing := "Gagal memperbarui buku. Mohon isi nama buku"
  const EditPagesInvalid := "Gagal memperbarui buku. readPage tidak boleh lebih besar dari pageCount"
  const EditSucceeded := "Buku berhasil diperbarui"
  const EditNotFound := "Gagal memperbarui buku. Id tidak ditemukan"
  const DeleteSucceeded := "Buku berhasil dihapus"
  const DeleteNotFound := "Buku gagal dihapus. Id tidak ditemukan"

  /** A payload that passes both checks of the create and update handlers. */
  predicate Acceptable(p: Payload) {
    p.name.Some? && !(p.readPage > p.pageCount)
  }

  /** The client-supplied part of a stored record, as a payload. */
  function PayloadOf(b: Book): Payload {
    Payload(Some(b.name), b.year, b.author, b.summary, b.publisher, b.pageCount, b.readPage, b.reading)
  }

  /** `finished` agrees with the page counts. */
  predicate FinishedConsistent(b: Book) {
    b.finished == (b.pageCount == b.readPage)
  }

  /** The record the create handler builds from the payload, a generated id
      and the current time. */
  function NewBook(p: Payload, id: string, now: string): (b: Book)
    requires p.name.Some?
    ensures PayloadOf(b) == p
    ensures b.id == id && b.insertedAt == now && b.updatedAt == b.insertedAt
    ensures FinishedConsistent(b)
  {
    Book(id, p.name.value, p.year, p.author, p.summary, p.publisher,
         p.pageCount, p.readPage, p.pageCount == p.readPage, p.reading, now, now)
  }

  /** The record the update handler writes back: a spread of the stored
      record overridden by the payload and the new `updatedAt`. `finished`
      is not among the overriding fields, so it keeps its stored value. */
  function Edited(prev: Book, p: Payload, now: string): (b: Book)
    requires p.name.Some?
    ensures PayloadOf(b) == p
    ensures b.id == prev.id && b.insertedAt == prev.insertedAt && b.finished == prev.finished
    ensures b.updatedAt == now
  {
    prev.(name := p.name.value, year := p.year, author := p.author, summary := p.summary,
          publisher := p.publisher, pageCount := p.pageCount, readPage := p.readPage,
          reading := p.reading, updatedAt := now)
  }

  /** An edited record is consistent exactly when the carried-over flag
      happens to match the new page counts. */
  lemma EditedConsistentIff(prev: Book, p: Payload, now: string)
    requires p.name.Some?
    ensures FinishedConsistent(Edited(prev, p, now)) <==> prev.finished == (p.pageCount == p.readPage)
  {
  }

  /** A finished book edited down to fewer read pages stays `finished`. */
  lemma EditLeavesFinishedStale(prev: Book, p: Payload, now: string)
    requires FinishedConsistent(prev) && prev.pageCount == prev.readPage
    requires p.name.Some? && p.readPage < p.pageCount
    ensures Edited(prev, p, now).finished
    ensures !FinishedConsistent(Edited(prev, p, now))
  {
  }
}
