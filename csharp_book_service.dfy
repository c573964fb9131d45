/** backend/csharp/BookService.cs: a dictionary of records keyed by id and
    an `int` counter whose decimal text is the next id. The counter is
    incremented in C#'s default unchecked context, so it wraps from
    2147483647 to -2147483648. */
module CSharpBookService {
  import opened Common
  import opened Decimal
  import opened TypedRecords

  /** The id the n-th create issues, counting creates from 1: the decimal
      text of the 32-bit counter that started at 1. */
  function IssuedId(n: nat): (r: string)
    ensures IsIntString(r) && ParseInt(r) == Wrap32(n)
    ensures n < Two31 ==> ParseInt(r) == n
  {
    ParseIntToString(Wrap32(n));
    IntToString(Wrap32(n))
  }

  /** The first id issued is "1". */
  lemma FirstIdIsOne()
    ensures IssuedId(1) == "1"
  {
  }

  /** Among any 2^32 consecutive creates no id is issued twice. */
  lemma IssuedIdsDistinct(i: nat, j: nat)
    requires 1 <= i < j && j - i < Two32
    ensures IssuedId(i) != IssuedId(j)
  {
    Wrap32InjectiveWindow(i, j);
    IntToStringInjective(Wrap32(i), Wrap32(j));
  }

  /** Until the counter overflows, the n-th id reads back as n, so ids
      increase by one per create. */
  lemma IssuedIdsCountUp(n: nat)
    requires 1 <= n < Two31
    ensures ParseInt(IssuedId(n)) == n
  {
  }

  /** The create after id "2147483647" issues "-2147483648". */
  lemma IdAfterInt32MaxIsNegative()
    ensures Wrap32(Two31) == -Two31
    ensures IssuedId(Two31) == IntToString(-Two31)
  {
  }

  /** Every stored record sits under its own id, issued by one of the
      first `issued` creates: the text `IssuedId` gives for that create. */
  predicate IdsIssued(books: map<string, Book>, serial: map<string, nat>, issued: nat)
  {
    forall k :: k in books ==>
      && k in serial && 1 <= serial[k] <= issued
      && k == IntToString(Wrap32(serial[k])) && books[k].id == k
  }

  /** Storing the record of the next create keeps the bookkeeping, and
      while fewer than 2^32 creates have run its id is not yet stored. */
  lemma StoreIssued(books: map<string, Book>, serial: map<string, nat>, issued: nat, r: Book)
    requires IdsIssued(books, serial, issued) && r.id == IssuedId(issued + 1)
    ensures IdsIssued(books[r.id := r], serial[r.id := issued + 1], issued + 1)
    ensures issued < Two32 ==> r.id !in books
  {
    if issued < Two32 && r.id in books {
      IssuedIdsDistinct(serial[r.id], issued + 1);
    }
  }

  /** One create's bookkeeping: the counter's text is the next issued id,
      storing the record keeps every id issued, and the counter steps on. */
  lemma NextIdIssued(books: map<string, Book>, serial: map<string, nat>, issued: nat, nextId: int, r: Book)
    requires nextId == Wrap32(issued + 1) && IdsIssued(books, serial, issued) && r.id == IntToString(nextId)
    ensures IdsIssued(books[r.id := r], serial[r.id := issued + 1], issued + 1)
    ensures issued < Two32 ==> r.id !in books
    ensures Wrap32(nextId + 1) == Wrap32(issued + 2)
  {
    StoreIssued(books, serial, issued, r);
    Wrap32Step(issued + 1);
  }

  /** Replacing a stored record by one with the same id keeps the
      bookkeeping. */
  lemma ReplaceIssued(books: map<string, Book>, serial: map<string, nat>, issued: nat, id: string, b: Book)
    requires IdsIssued(books, serial, issued) && id in books && b.id == id
    ensures IdsIssued(books[id := b], serial, issued)
  {
  }

  class BookService {
    var books: map<string, Book>
    var nextId: int
    /** How many creates have run. */
    ghost var issued: nat
    /** For each stored id, the number of the create that issued it. */
    ghost var serial: map<string, nat>

    ghost predicate Valid()
      reads this
    {
      && nextId == Wrap32(issued + 1)
      && IdsIssued(books, serial, issued)
    }

    constructor ()
      ensures Valid()
      ensures books == map[] && nextId == 1 && issued == 0
    {
      books := map[];
      nextId := 1;
      issued := 0;
      serial := map[];
    }

    /** FindAllAsync: the stored records, each once, in the dictionary's
        order, which `order` names key by key. */
    method FindAllAsync() returns (r: seq<Book>, ghost order: seq<string>)
      ensures |order| == |r| == |books|
      ensures forall i :: 0 <= i < |order| ==> order[i] in books && r[i] == books[order[i]]
      ensures forall i, j :: 0 <= i < j < |order| ==> order[i] != order[j]
      ensures forall k :: k in books ==> k in order
      ensures forall b :: b in r <==> b in books.Values
    {
      r, order := ValuesInSomeOrder(books);
      forall b | b in books.Values ensures b in r {
        var k :| k in books && books[k] == b;
        var i :| 0 <= i < |order| && order[i] == k;
        assert r[i] == b;
      }
    }

    /** FindOneAsync: the record stored under `id`, or null. */
    method FindOneAsync(id: string) returns (r: Option<Book>)
      ensures r.Some? <==> id in books
      ensures r.Some? ==> r.value == books[id]
    {
      if id in books {
        r := Some(books[id]);
      } else {
        r := None;
      }
    }

    /** CreateAsync. While fewer than 2^32 creates have run, the id is new,
        so nothing is overwritten and the dictionary grows by one. */
    method CreateAsync(dto: CreateBookDto) returns (r: Book)
      requires Valid()
      modifies this
      ensures Valid()
      ensures r == FromDto(IntToString(old(nextId)), dto)
      ensures books == old(books)[r.id := r]
      ensures nextId == Wrap32(old(nextId) + 1) && issued == old(issued) + 1
      ensures old(issued) < Two32 ==> r.id !in old(books) && |books| == |old(books)| + 1
    {
      var id := IntToString(nextId);
      ghost var n := issued + 1;
      r := FromDto(id, dto);
      NextIdIssued(books, serial, issued, nextId, r);
      nextId := Wrap32(nextId + 1);
      books := books[id := r];
      serial := serial[id := n];
      issued := n;
    }

    /** UpdateAsync: null for an unknown id; otherwise every non-null DTO
        field is set on the stored record, which is returned. */
    method UpdateAsync(id: string, dto: UpdateBookDto) returns (r: Option<Book>)
      requires Valid()
      modifies this
      ensures Valid()
      ensures nextId == old(nextId) && issued == old(issued)
      ensures id !in old(books) ==> r.None? && books == old(books)
      ensures id in old(books) ==> r == Some(ApplyUpdate(old(books)[id], dto)) && books == old(books)[id := r.value]
    {
      if id !in books {
        return None;
      }
      var book := ApplyUpdate(books[id], dto);
      ReplaceIssued(books, serial, issued, id, book);
      books := books[id := book];
      r := Some(book);
    }

    /** DeleteAsync: removes `id` when present, a no-op otherwise. */
    method DeleteAsync(id: string)
      requires Valid()
      modifies this
      ensures Valid()
      ensures books == old(books) - {id}
      ensures nextId == old(nextId) && issued == old(issued)
    {
      books := books - {id};
    }
  }
}
