/** The in-memory branch of backend/fastapi/database.py: the list
    `db['books']`. Every record carries an "id" key, so the loops'
    `book['id']` never raises. */
module FastApiDatabase {
  import opened Common
  import opened DynamicRecords

  /** The fields of the BookUpdate model. */
  const UpdateFields: set<string> := {"title", "author", "description", "cover_image_url"}

  /** The update body with its unset fields excluded: some of the BookUpdate fields. */
  predicate IsBookUpdate(u: Record)
  {
    forall k :: k in u ==> k in UpdateFields
  }

  /** An update never touches the id: the record keeps it and stays the
      first match for it, and only the update's keys change. */
  lemma UpdateKeepsId(s: seq<Record>, id: string, u: Record)
    requires IsBookUpdate(u) && FindFirst(s, id).Some?
    ensures var i := FindFirst(s, id).value;
            var t := s[i := Merge(s[i], u)];
            && HasId(t[i], id) && FindFirst(t, id) == Some(i)
            && forall k :: k in s[i] && k !in u ==> k in t[i] && t[i][k] == s[i][k]
  {
    var i := FindFirst(s, id).value;
    var t := s[i := Merge(s[i], u)];
    assert "id" !in u;
    forall j | 0 <= j < i ensures !HasId(t[j], id) {
      assert t[j] == s[j];
    }
    FirstMatchUnique(t, id, i);
  }

  class Database {
    var books: seq<Record>

    ghost predicate Valid()
      reads this
    {
      forall i :: 0 <= i < |books| ==> "id" in books[i]
    }

    /** connect_to_db, in-memory branch: the list starts empty. */
    constructor ConnectToDb()
      ensures Valid() && books == []
    {
      books := [];
    }

    /** create_book: the body with the id set after it, appended and returned. */
    method CreateBook(book: Record, freshId: string) returns (r: Record)
      requires Valid()
      modifies this
      ensures Valid()
      ensures r == SpreadThenId(book, freshId) && HasId(r, freshId)
      ensures books == old(books) + [r]
    {
      r := SpreadThenId(book, freshId);
      SpreadThenIdWins(freshId, book);
      books := books + [r];
    }

    /** get_all_books: the list itself, in insertion order. */
    method GetAllBooks() returns (r: seq<Record>)
      ensures r == books
    {
      r := books;
    }

    /** get_book: the loop returns the first record with the id, or None. */
    method GetBook(id: string) returns (r: Option<Record>)
      requires Valid()
      ensures r.Some? <==> FindFirst(books, id).Some?
      ensures r.Some? ==> r.value == books[FindFirst(books, id).value]
    {
      var i := 0;
      while i < |books|
        invariant 0 <= i <= |books|
        invariant forall j :: 0 <= j < i ==> !HasId(books[j], id)
      {
        if books[i]["id"] == Str(id) {
          FirstMatchUnique(books, id, i);
          return Some(books[i]);
        }
        i := i + 1;
      }
      return None;
    }

    /** update_book: None for an unknown id; otherwise the first match is
        replaced by itself overridden by the fields set in the update. */
    method UpdateBook(id: string, update: Record) returns (r: Option<Record>)
      requires Valid() && IsBookUpdate(update)
      modifies this
      ensures Valid()
      ensures FindFirst(old(books), id).None? ==> r.None? && books == old(books)
      ensures FindFirst(old(books), id).Some? ==>
                var i := FindFirst(old(books), id).value;
                r == Some(Merge(old(books)[i], update)) && books == old(books)[i := r.value]
    {
      var i := 0;
      while i < |books|
        invariant 0 <= i <= |books|
        invariant forall j :: 0 <= j < i ==> !HasId(books[j], id)
        invariant books == old(books)
      {
        if books[i]["id"] == Str(id) {
          FirstMatchUnique(books, id, i);
          var updated := Merge(books[i], update);
          books := books[i := updated];
          return Some(updated);
        }
        i := i + 1;
      }
      return None;
    }

    /** delete_book: keeps the records without the id, in order; True
        exactly when the list shrank, that is when some record had it. */
    method DeleteBook(id: string) returns (deleted: bool)
      requires Valid()
      modifies this
      ensures Valid()
      ensures books == RemoveAll(old(books), id)
      ensures deleted <==> FindFirst(old(books), id).Some?
      ensures deleted <==> |books| < |old(books)|
    {
      var initialLen := |books|;
      RemoveAllShrinks(books, id);
      ghost var before := books;
      books := RemoveAll(books, id);
      forall i | 0 <= i < |books| ensures "id" in books[i] {
        assert books[i] in before;
      }
      deleted := |books| < initialLen;
    }
  }
}
