/** The record store of the C backend (backend/c/book.c, book.h): a static
    array of MAX_BOOKS fixed-size Book structs and a count of live records.

    C strings are modelled by their contents, the characters before the
    terminating NUL; a NULL pointer argument is `None`. UUID generation is
    not modelled: the id a create would generate is a parameter. */
module CBook {
  import opened Common

  /** MAX_BOOKS. */
  const MaxBooks: nat := 1000

  /** Sizes of the char buffers of the Book struct, NUL included. */
  const IdSize: nat := 37
  const TitleSize: nat := 256
  const AuthorSize: nat := 256
  const DescriptionSize: nat := 1024
  const CoverImageUrlSize: nat := 512

  /** Length of the text of a canonical UUID, which generate_uuid writes. */
  const UuidLength: nat := 36

  datatype Book = Book(id: string, title: string, author: string, description: string, coverImageUrl: string)

  /** A slot of the array after memset(books, 0, ...). */
  const EmptyBook := Book("", "", "", "", "")

  /** What an operation returns together with the records it leaves behind. */
  datatype Step<R> = Step(result: R, contents: seq<Book>)

  /** A bounded copy into a field of `size` bytes whose last byte is forced
      to NUL, read back as a C string: the longest prefix of `s` that fits
      before the terminator. */
  function Truncate(s: string, size: nat): (r: string)
    requires size > 0
    ensures r <= s
    ensures |r| == Min(|s|, size - 1)
  {
    if |s| < size then s else s[..size - 1]
  }

  /** A non-NULL, non-empty argument: the test create_book applies to title
      and author, and update_book to the new title and author. */
  predicate Present(s: Option<string>)
    ensures Present(s) <==> s.Some? && Truncate(s.value, TitleSize) != ""
    ensures Present(s) <==> s.Some? && Truncate(s.value, AuthorSize) != ""
  {
    s.Some? && s.value != ""
  }

  /** What a live slot holds: text that fits its buffer, and a non-empty
      title and author. */
  predicate WellFormed(b: Book)
  {
    && |b.id| < IdSize
    && 0 < |b.title| < TitleSize
    && 0 < |b.author| < AuthorSize
    && |b.description| < DescriptionSize
    && |b.coverImageUrl| < CoverImageUrlSize
  }

  /** The invariant the store keeps for its live records. */
  predicate StoreInvariant(s: seq<Book>)
  {
    |s| <= MaxBooks && forall i :: 0 <= i < |s| ==> WellFormed(s[i])
  }

  /** All ids differ. The store never checks this; it holds when every
      generated id is fresh. */
  predicate DistinctIds(s: seq<Book>)
  {
    forall i, j :: 0 <= i < j < |s| ==> s[i].id != s[j].id
  }

  /** The record create_book writes into the next free slot. */
  function NewBook(id: string, title: string, author: string,
                   description: Option<string>, coverImageUrl: Option<string>): (b: Book)
    requires |id| == UuidLength && title != "" && author != ""
    ensures WellFormed(b) && b.id == id
    ensures b.title <= title && |b.title| == Min(|title|, TitleSize - 1)
    ensures b.author <= author && |b.author| == Min(|author|, AuthorSize - 1)
    ensures description.None? ==> b.description == ""
    ensures description.Some? ==>
              b.description <= description.value && |b.description| == Min(|description.value|, DescriptionSize - 1)
    ensures coverImageUrl.None? ==> b.coverImageUrl == ""
    ensures coverImageUrl.Some? ==>
              b.coverImageUrl <= coverImageUrl.value && |b.coverImageUrl| == Min(|coverImageUrl.value|, CoverImageUrlSize - 1)
  {
    Book(id,
         Truncate(title, TitleSize),
         Truncate(author, AuthorSize),
         if description.Some? then Truncate(description.value, DescriptionSize) else "",
         if coverImageUrl.Some? then Truncate(coverImageUrl.value, CoverImageUrlSize) else "")
  }

  /** What update_book does to the record it found: title and author are
      replaced only by a non-empty value, description and coverImageUrl by
      any value supplied. */
  function ApplyUpdate(b: Book, title: Option<string>, author: Option<string>,
                       description: Option<string>, coverImageUrl: Option<string>): (r: Book)
    ensures r.id == b.id
    ensures WellFormed(b) ==> WellFormed(r)
    ensures !Present(title) ==> r.title == b.title
    ensures Present(title) ==> r.title <= title.value && |r.title| == Min(|title.value|, TitleSize - 1)
    ensures !Present(author) ==> r.author == b.author
    ensures Present(author) ==> r.author <= author.value && |r.author| == Min(|author.value|, AuthorSize - 1)
    ensures description.None? ==> r.description == b.description
    ensures description.Some? ==>
              r.description <= description.value && |r.description| == Min(|description.value|, DescriptionSize - 1)
    ensures coverImageUrl.None? ==> r.coverImageUrl == b.coverImageUrl
    ensures coverImageUrl.Some? ==>
              r.coverImageUrl <= coverImageUrl.value && |r.coverImageUrl| == Min(|coverImageUrl.value|, CoverImageUrlSize - 1)
  {
    Book(b.id,
         if Present(title) then Truncate(title.value, TitleSize) else b.title,
         if Present(author) then Truncate(author.value, AuthorSize) else b.author,
         if description.Some? then Truncate(description.value, DescriptionSize) else b.description,
         if coverImageUrl.Some? then Truncate(coverImageUrl.value, CoverImageUrlSize) else b.coverImageUrl)
  }

  /** The index get_book_by_id's scan stops at: the lowest index whose id
      equals `id` exactly (strcmp), or None. */
  function FirstIndex(s: seq<Book>, id: string): (r: Option<nat>)
    ensures r.Some? ==> r.value < |s| && s[r.value].id == id
    ensures r.Some? ==> forall j :: 0 <= j < r.value ==> s[j].id != id
    ensures r.None? ==> forall j :: 0 <= j < |s| ==> s[j].id != id
  {
    if |s| == 0 then None
    else if s[0].id == id then Some(0)
    else match FirstIndex(s[1..], id)
      case None => None
      case Some(k) => Some(k + 1)
  }

  /** create_book on a store holding `s`. */
  function Create(s: seq<Book>, title: Option<string>, author: Option<string>,
                  description: Option<string>, coverImageUrl: Option<string>, newId: string): (r: Step<Option<Book>>)
    requires |newId| == UuidLength
    ensures r.result.None? <==> |s| >= MaxBooks || !Present(title) || !Present(author)
    ensures r.result.None? ==> r.contents == s
    ensures r.result.Some? ==> r.contents == s + [r.result.value]
    ensures r.result.Some? ==> r.result.value == NewBook(newId, title.value, author.value, description, coverImageUrl)
  {
    if |s| >= MaxBooks || !Present(title) || !Present(author) then Step(None, s)
    else
      var b := NewBook(newId, title.value, author.value, description, coverImageUrl);
      Step(Some(b), s + [b])
  }

  /** update_book on a store holding `s`. */
  function Update(s: seq<Book>, id: string, title: Option<string>, author: Option<string>,
                  description: Option<string>, coverImageUrl: Option<string>): (r: Step<Option<Book>>)
    ensures r.result.None? <==> FirstIndex(s, id).None?
    ensures r.result.None? ==> r.contents == s
    ensures r.result.Some? ==> var i := FirstIndex(s, id).value;
                               && r.result.value == ApplyUpdate(s[i], title, author, description, coverImageUrl)
                               && r.contents == s[i := r.result.value]
  {
    match FirstIndex(s, id)
    case None => Step(None, s)
    case Some(i) =>
      var b := ApplyUpdate(s[i], title, author, description, coverImageUrl);
      Step(Some(b), s[i := b])
  }

  /** delete_book_by_id on a store holding `s`: 1 and the first match cut
      out, or 0 and nothing changed. */
  function Delete(s: seq<Book>, id: string): (r: Step<int>)
    ensures r.result == 1 <==> FirstIndex(s, id).Some?
    ensures r.result == 0 <==> FirstIndex(s, id).None?
    ensures r.result == 0 ==> r.contents == s
    ensures r.result == 1 ==> var i := FirstIndex(s, id).value;
                              r.contents == s[..i] + s[i + 1..]
  {
    match FirstIndex(s, id)
    case None => Step(0, s)
    case Some(i) => Step(1, s[..i] + s[i + 1..])
  }

  // ---------------------------------------------------------------------
  // Properties of the store, stated on its contents.

  /** Create keeps the count bound and the non-empty title and author of
      every live record. */
  lemma {:induction false} CreatePreservesInvariant(s: seq<Book>, newId: string,
                                                    title: Option<string>, author: Option<string>,
                                                    description: Option<string>, coverImageUrl: Option<string>)
    requires StoreInvariant(s) && |newId| == UuidLength
    ensures StoreInvariant(Create(s, title, author, description, coverImageUrl, newId).contents)
  {
    var c := Create(s, title, author, description, coverImageUrl, newId).contents;
    forall k | 0 <= k < |c| ensures WellFormed(c[k]) {
      if k < |s| { assert c[k] == s[k]; }
    }
  }

  /** So does update. */
  lemma {:induction false} UpdatePreservesInvariant(s: seq<Book>, id: string,
                                                    title: Option<string>, author: Option<string>,
                                                    description: Option<string>, coverImageUrl: Option<string>)
    requires StoreInvariant(s)
    ensures StoreInvariant(Update(s, id, title, author, description, coverImageUrl).contents)
  {
    var u := Update(s, id, title, author, description, coverImageUrl).contents;
    forall k | 0 <= k < |u| ensures WellFormed(u[k]) {
      if FirstIndex(s, id).Some? && k == FirstIndex(s, id).value {
      } else {
        assert u[k] == s[k];
      }
    }
  }

  /** So does delete. */
  lemma {:induction false} DeletePreservesInvariant(s: seq<Book>, id: string)
    requires StoreInvariant(s)
    ensures StoreInvariant(Delete(s, id).contents)
  {
    var d := Delete(s, id).contents;
    if FirstIndex(s, id).Some? {
      var i := FirstIndex(s, id).value;
      forall k | 0 <= k < |d| ensures WellFormed(d[k]) {
        if k < i { assert d[k] == s[k]; } else { assert d[k] == s[k + 1]; }
      }
    }
  }

  /** A create with a fresh id, followed by a lookup of that id, finds the
      record create returned, at the end of the store. */
  lemma {:induction false} CreateThenGet(s: seq<Book>, title: Option<string>, author: Option<string>,
                                         description: Option<string>, coverImageUrl: Option<string>, newId: string)
    requires |newId| == UuidLength && FirstIndex(s, newId).None?
    requires Create(s, title, author, description, coverImageUrl, newId).result.Some?
    ensures var c := Create(s, title, author, description, coverImageUrl, newId);
            FirstIndex(c.contents, newId) == Some(|s|) && c.contents[|s|] == c.result.value
  {
    var c := Create(s, title, author, description, coverImageUrl, newId);
    assert c.contents[|s|].id == newId;
    forall j | 0 <= j < |s| ensures c.contents[j].id != newId {
      assert c.contents[j] == s[j];
    }
  }

  /** Creating with a fresh id keeps the ids distinct. */
  lemma {:induction false} CreatePreservesDistinctIds(s: seq<Book>, newId: string,
                                                      title: Option<string>, author: Option<string>,
                                                      description: Option<string>, coverImageUrl: Option<string>)
    requires DistinctIds(s) && |newId| == UuidLength && FirstIndex(s, newId).None?
    ensures DistinctIds(Create(s, title, author, description, coverImageUrl, newId).contents)
  {
    var c := Create(s, title, author, description, coverImageUrl, newId).contents;
    forall a, b | 0 <= a < b < |c| ensures c[a].id != c[b].id {
      if b == |s| { assert c[a] == s[a]; } else { assert c[a] == s[a] && c[b] == s[b]; }
    }
  }

  /** Update never changes an id, so it keeps them distinct. */
  lemma {:induction false} UpdatePreservesDistinctIds(s: seq<Book>, id: string,
                                                      title: Option<string>, author: Option<string>,
                                                      description: Option<string>, coverImageUrl: Option<string>)
    requires DistinctIds(s)
    ensures DistinctIds(Update(s, id, title, author, description, coverImageUrl).contents)
  {
    var u := Update(s, id, title, author, description, coverImageUrl).contents;
    forall a, b | 0 <= a < b < |u| ensures u[a].id != u[b].id {
      assert u[a].id == s[a].id && u[b].id == s[b].id;
    }
  }

  /** Delete removes a record and keeps the others' order, so it keeps the
      ids distinct. */
  lemma {:induction false} DeletePreservesDistinctIds(s: seq<Book>, id: string)
    requires DistinctIds(s)
    ensures DistinctIds(Delete(s, id).contents)
  {
    var d := Delete(s, id).contents;
    if FirstIndex(s, id).Some? {
      var i := FirstIndex(s, id).value;
      forall a, b | 0 <= a < b < |d| ensures d[a].id != d[b].id {
        var a' := if a < i then a else a + 1;
        var b' := if b < i then b else b + 1;
        assert d[a] == s[a'] && d[b] == s[b'];
      }
    }
  }

  /** With distinct ids, a delete that succeeds leaves no record with that
      id, so a second delete of the same id returns 0. */
  lemma {:induction false} DeleteTwice(s: seq<Book>, id: string)
    requires DistinctIds(s) && FirstIndex(s, id).Some?
    ensures Delete(s, id).result == 1
    ensures FirstIndex(Delete(s, id).contents, id).None?
    ensures Delete(Delete(s, id).contents, id).result == 0
  {
    var i := FirstIndex(s, id).value;
    var d := Delete(s, id).contents;
    forall k | 0 <= k < |d| ensures d[k].id != id {
      if k < i { assert d[k] == s[k]; } else { assert d[k] == s[k + 1]; }
    }
  }

  /** Delete keeps every other record and their relative order: the removed
      record is the first one with the id, and the rest is the old store
      with that one position skipped. */
  lemma {:induction false} DeleteKeepsOthers(s: seq<Book>, id: string)
    requires FirstIndex(s, id).Some?
    ensures var i := FirstIndex(s, id).value;
            var d := Delete(s, id).contents;
            && |d| == |s| - 1
            && multiset(d) + multiset{s[i]} == multiset(s)
            && (forall k :: 0 <= k < i ==> d[k] == s[k])
            && (forall k :: i <= k < |d| ==> d[k] == s[k + 1])
  {
    var i := FirstIndex(s, id).value;
    assert s == s[..i] + [s[i]] + s[i + 1..];
  }

  /** An update with an empty or missing title and author keeps both and
      still succeeds on a known id. */
  lemma BlankTitleAuthorKeepsThem(s: seq<Book>, id: string, description: Option<string>, coverImageUrl: Option<string>)
    requires FirstIndex(s, id).Some?
    ensures var u := Update(s, id, Some(""), None, description, coverImageUrl);
            var i := FirstIndex(s, id).value;
            u.result.Some? && u.contents[i].title == s[i].title && u.contents[i].author == s[i].author
  {
  }

  /** Dropping one live record keeps the store invariant. */
  lemma WithoutSlotKeepsInvariant(s: seq<Book>, i: nat)
    requires StoreInvariant(s) && i < |s|
    ensures StoreInvariant(s[..i] + s[i + 1..])
  {
    var t := s[..i] + s[i + 1..];
    forall k | 0 <= k < |t| ensures WellFormed(t[k]) {
      if k < i {
        assert t[k] == s[k];
      } else {
        assert t[k] == s[k + 1];
      }
    }
  }

  /** The array after the shift, as a sequence: the first match cut out of
      the live prefix, and the old last live record left behind it. */
  lemma ShiftedContents(before: seq<Book>, after: seq<Book>, i: nat, n: nat)
    requires i < n <= |before| == |after|
    requires forall k :: 0 <= k < i ==> after[k] == before[k]
    requires forall k :: i <= k < n - 1 ==> after[k] == before[k + 1]
    requires forall k :: n - 1 <= k < |after| ==> after[k] == before[k]
    ensures after == before[..i] + before[i + 1..n] + before[n - 1..]
    ensures after[..n - 1] == before[..i] + before[i + 1..n]
  {
    var want := before[..i] + before[i + 1..n] + before[n - 1..];
    assert |want| == |after|;
    forall k | 0 <= k < |after| ensures after[k] == want[k] {
      if k < i {
      } else if k < n - 1 {
        assert want[k] == before[i + 1..n][k - i];
      } else {
        assert want[k] == before[n - 1..][k - (n - 1)];
      }
    }
  }

  // ---------------------------------------------------------------------
  // The store itself: the static record array and its live count.

  class BookStore {
    const books: array<Book>
    var bookCount: nat

    ghost predicate Valid()
      reads this, books
    {
      books.Length == MaxBooks && bookCount <= MaxBooks && StoreInvariant(books[..bookCount])
    }

    /** The live records, in index order. */
    ghost function Contents(): seq<Book>
      reads this, books
      requires Valid()
    {
      books[..bookCount]
    }

    /** The zero-initialised static storage. */
    constructor ()
      ensures Valid() && Contents() == []
      ensures forall i :: 0 <= i < books.Length ==> books[i] == EmptyBook
    {
      books := new Book[MaxBooks](_ => EmptyBook);
      bookCount := 0;
    }

    /** init_book_storage: the count drops to zero and every slot is zeroed. */
    method InitBookStorage()
      requires Valid()
      modifies this, books
      ensures Valid() && Contents() == []
      ensures forall i :: 0 <= i < books.Length ==> books[i] == EmptyBook
    {
      bookCount := 0;
      forall i | 0 <= i < books.Length {
        books[i] := EmptyBook;
      }
    }

    /** create_book: on success writes slot `book_count` and counts it;
        nothing else in the array changes. */
    method CreateBook(title: Option<string>, author: Option<string>,
                      description: Option<string>, coverImageUrl: Option<string>, newId: string)
      returns (r: Option<Book>)
      requires Valid() && |newId| == UuidLength
      modifies this, books
      ensures Valid()
      ensures r == Create(old(Contents()), title, author, description, coverImageUrl, newId).result
      ensures Contents() == Create(old(Contents()), title, author, description, coverImageUrl, newId).contents
      ensures r.None? ==> bookCount == old(bookCount) && books[..] == old(books[..])
      ensures r.Some? ==> bookCount == old(bookCount) + 1 && books[..] == old(books[..])[old(bookCount) := r.value]
    {
      if bookCount >= MaxBooks {
        return None;
      }
      if title.None? || author.None? || |title.value| == 0 || |author.value| == 0 {
        return None;
      }
      var b := NewBook(newId, title.value, author.value, description, coverImageUrl);
      books[bookCount] := b;
      bookCount := bookCount + 1;
      assert books[..bookCount] == old(books[..bookCount]) + [b];
      r := Some(b);
    }

    /** get_all_books: the count and the records in index order. */
    method GetAllBooks() returns (result: seq<Book>, count: nat)
      requires Valid()
      ensures count == bookCount
      ensures result == Contents()
    {
      count := bookCount;
      result := [];
      for i := 0 to bookCount
        invariant result == books[..i]
      {
        result := result + [books[i]];
      }
    }

    /** get_book_by_id: the index of the first record whose id equals `id`. */
    method GetBookById(id: string) returns (r: Option<nat>)
      requires Valid()
      ensures r == FirstIndex(Contents(), id)
      ensures r.Some? ==> r.value < bookCount && books[r.value].id == id
    {
      for i := 0 to bookCount
        invariant forall j :: 0 <= j < i ==> books[j].id != id
      {
        if books[i].id == id {
          assert Contents()[i].id == id;
          return Some(i);
        }
      }
      return None;
    }

    /** update_book: rewrites the first record with that id in place. */
    method UpdateBook(id: string, title: Option<string>, author: Option<string>,
                      description: Option<string>, coverImageUrl: Option<string>)
      returns (r: Option<Book>)
      requires Valid()
      modifies books
      ensures Valid() && bookCount == old(bookCount)
      ensures r == Update(old(Contents()), id, title, author, description, coverImageUrl).result
      ensures Contents() == Update(old(Contents()), id, title, author, description, coverImageUrl).contents
      ensures r.None? ==> books[..] == old(books[..])
      ensures r.Some? ==> books[..] == old(books[..])[FirstIndex(old(Contents()), id).value := r.value]
    {
      var found := GetBookById(id);
      if found.None? {
        return None;
      }
      var i := found.value;
      var b := ApplyUpdate(books[i], title, author, description, coverImageUrl);
      books[i] := b;
      assert books[..bookCount] == old(books[..bookCount])[i := b];
      r := Some(b);
    }

    /** The inner loop of delete_book_by_id: every record after slot `i`
        moves down one slot; the last live slot keeps its old record. */
    method ShiftDown(i: nat)
      requires Valid() && i < bookCount
      modifies books
      ensures forall k :: 0 <= k < i ==> books[k] == old(books[k])
      ensures forall k :: i <= k < bookCount - 1 ==> books[k] == old(books[k + 1])
      ensures forall k :: bookCount - 1 <= k < books.Length ==> books[k] == old(books[k])
    {
      var j := i;
      while j < bookCount - 1
        invariant i <= j <= bookCount - 1
        invariant forall k :: 0 <= k < i ==> books[k] == old(books[k])
        invariant forall k :: i <= k < j ==> books[k] == old(books[k + 1])
        invariant forall k :: j <= k < books.Length ==> books[k] == old(books[k])
      {
        books[j] := books[j + 1];
        j := j + 1;
      }
    }

    /** The found branch of delete_book_by_id: slot `i` is dropped, the
        later records close the gap and the count goes down by one. */
    method RemoveSlot(i: nat)
      requires Valid() && i < bookCount
      modifies this, books
      ensures Valid()
      ensures bookCount == old(bookCount) - 1
      ensures Contents() == old(Contents())[..i] + old(Contents())[i + 1..]
      ensures books[..] == old(books[..])[..i] + old(books[..])[i + 1..old(bookCount)]
                           + old(books[..])[old(bookCount) - 1..]
    {
      ghost var before, s, n := books[..], Contents(), bookCount;
      WithoutSlotKeepsInvariant(s, i);
      ShiftDown(i);
      bookCount := bookCount - 1;
      ShiftedContents(before, books[..], i, n);
      assert books[..bookCount] == s[..i] + s[i + 1..] by {
        assert before[..i] == s[..i] && before[i + 1..n] == s[i + 1..];
      }
    }

    /** delete_book_by_id: shifts the records after the first match one slot
        left and drops the count. The last old slot keeps its old record. */
    method DeleteBookById(id: string) returns (deleted: int)
      requires Valid()
      modifies this, books
      ensures Valid()
      ensures deleted == Delete(old(Contents()), id).result
      ensures Contents() == Delete(old(Contents()), id).contents
      ensures deleted == 0 ==> bookCount == old(bookCount) && books[..] == old(books[..])
      ensures deleted == 1 ==> var i := FirstIndex(old(Contents()), id).value;
                               && bookCount == old(bookCount) - 1
                               && books[..] == old(books[..])[..i] + old(books[..])[i + 1..old(bookCount)]
                                               + old(books[..])[old(bookCount) - 1..]
    {
      for i := 0 to bookCount
        invariant bookCount == old(bookCount) && books[..] == old(books[..])
        invariant forall j :: 0 <= j < i ==> books[j].id != id
      {
        if books[i].id == id {
          ghost var s := Contents();
          assert s == old(Contents());
          assert FirstIndex(s, id) == Some(i) by {
            assert s[i].id == id;
          }
          RemoveSlot(i);
          return 1;
        }
      }
      return 0;
    }
  }
}
