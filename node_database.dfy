/** The in-memory branch of backend/nodejs/database.js: the module-level
    `db.books` array. */
module NodeDatabase {
  import opened Common
  import opened DynamicRecords

  class Database {
    var books: seq<Record>

    /** connect, in-memory branch: the array starts empty. */
    constructor Connect()
      ensures books == []
    {
      books := [];
    }

    /** createBook: the id first, the body spread after it, pushed at the end and returned. */
    method CreateBook(book: Record, freshId: string) returns (r: Record)
      modifies this
      ensures r == IdThenSpread(freshId, book)
      ensures books == old(books) + [r]
    {
      r := IdThenSpread(freshId, book);
      books := books + [r];
    }

    /** findAllBooks: the array itself, in insertion order. */
    method FindAllBooks() returns (r: seq<Record>)
      ensures r == books
    {
      r := books;
    }

    /** findBookById: the first record with the id, or undefined. */
    method FindBookById(id: string) returns (r: Option<Record>)
      ensures r.Some? <==> FindFirst(books, id).Some?
      ensures r.Some? ==> r.value == books[FindFirst(books, id).value]
    {
      r := match FindFirst(books, id)
           case None => None
           case Some(i) => Some(books[i]);
    }

    /** updateBook: null for an unknown id; otherwise the first match is
        overridden by every key of `updates`, "id" included, in place. */
    method UpdateBook(id: string, updates: Record) returns (r: Option<Record>)
      modifies this
      ensures FindFirst(old(books), id).None? ==> r.None? && books == old(books)
      ensures FindFirst(old(books), id).Some? ==>
                var i := FindFirst(old(books), id).value;
                r == Some(Merge(old(books)[i], updates)) && books == old(books)[i := r.value]
    {
      var index := FindFirst(books, id);
      if index.None? {
        return None;
      }
      var i := index.value;
      books := books[i := Merge(books[i], updates)];
      r := Some(books[i]);
    }

    /** deleteBook: keeps the records without the id, in order; true
        exactly when some record had it. */
    method DeleteBook(id: string) returns (deleted: bool)
      modifies this
      ensures books == RemoveAll(old(books), id)
      ensures deleted <==> FindFirst(old(books), id).Some?
      ensures deleted <==> |books| < |old(books)|
    {
      var initialLength := |books|;
      RemoveAllShrinks(books, id);
      books := RemoveAll(books, id);
      deleted := |books| < initialLength;
    }
  }
}
