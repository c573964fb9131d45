/** backend/java/src/main/java/com/example/bookapi/BookService.java: a
    HashMap of records keyed by id and an AtomicLong counter starting at 1
    whose decimal text is the next id. `getAndIncrement` wraps from
    Long.MAX_VALUE to Long.MIN_VALUE. */
module JavaBookService {
  import opened Common
  import opened Decimal
  import opened TypedRecords

  /** The id the n-th create issues, counting creates from 1:
      `String.valueOf` of the 64-bit counter that started at 1. */
  function IssuedId(n: nat): (r: string)
    ensures IsIntString(r) && ParseInt(r) == Wrap64(n)
    ensures n < Two63 ==> ParseInt(r) == n
  {
    ParseIntToString(Wrap64(n));
    IntToString(Wrap64(n))
  }

  /** Among any 2^64 consecutive creates no id is issued twice. */
  lemma IssuedIdsDistinct(i: nat, j: nat)
    requires 1 <= i < j && j - i < Two64
    ensures IssuedId(i) != IssuedId(j)
  {
    Wrap64InjectiveWindow(i, j);
    IntToStringInjective(Wrap64(i), Wrap64(j));
  }

  /** Until the counter overflows, successive creates get strictly
      increasing ids, read as numbers, starting at 1. */
  lemma IssuedIdsIncrease(i: nat, j: nat)
    requires 1 <= i < j < Two63
    ensures ParseInt(IssuedId(i)) == i && ParseInt(IssuedId(j)) == j
    ensures ParseInt(IssuedId(i)) < ParseInt(IssuedId(j))
  {
  }

  /** Every stored record sits under its own id, issued by one of the
      first `issued` creates: the text `IssuedId` gives for that create. */
  predicate IdsIssued(books: map<string, Book>, serial: map<string, nat>, issued: nat)
  {
    forall k :: k in books ==>
      && k in serial && 1 <= serial[k] <= issued
      && k == IntToString(Wrap64(serial[k])) && books[k].id == k
  }

  /** Storing the record of the next create keeps the bookkeeping, and
      while fewer than 2^64 creates have run its id is not yet stored. */
  lemma StoreIssued(books: map<string, Book>, serial: map<string, nat>, issued: nat, r: Book)
    requires IdsIssued(books, serial, issued) && r.id == IssuedId(issued + 1)
    ensures IdsIssued(books[r.id := r], serial[r.id := issued + 1], issued + 1)
    ensures issued < Two64 ==> r.id !in books
  {
    if issued < Two64 && r.id in books {
      IssuedIdsDistinct(serial[r.id], issued + 1);
    }
  }

  /** One create's bookkeeping: the counter's text is the next issued id,
      storing the record keeps every id issued, and the counter steps on. */
  lemma NextIdIssued(books: map<string, Book>, serial: map<string, nat>, issued: nat, idCounter: int, r: Book)
    requires idCounter == Wrap64(issued + 1) && IdsIssued(books, serial, issued) && r.id == IntToString(idCounter)
    ensures IdsIssued(books[r.id := r], serial[r.id := issued + 1], issued + 1)
    ensures issued < Two64 ==> r.id !in books
    ensures Wrap64(idCounter + 1) == Wrap64(issued + 2)
  {
    StoreIssued(books, serial, issued, r);
    Wrap64Step(issued + 1);
  }

  /** Replacing a stored record by one with the same id keeps the
      bookkeeping. */
  lemma ReplaceIssued(books: map<string, Book>, serial: map<string, nat>, issued: nat, id: string, b: Book)
    requires IdsIssued(books, serial, issued) && id in books && b.id == id
    ensures IdsIssued(books[id := b], serial, issued)
  {
  }

  class BookService {
    var books: map<string, Book>
    var idCounter: int
    /** How many creates have run. */
    ghost var issued: nat
    /** For each stored id, the number of the create that issued it. */
    ghost var serial: map<string, nat>

    ghost predicate Valid()
      reads this
    {
      && idCounter == Wrap64(issued + 1)
      && IdsIssued(books, serial, issued)
    }

    constructor ()
      ensures Valid()
      ensures books == map[] && idCounter == 1 && issued == 0
    {
      books := map[];
      idCounter := 1;
      issued := 0;
      serial := map[];
    }

    /** findAll: a new list holding exactly the map's values, in the map's
        order, which `order` names key by key. */
    method FindAll() returns (r: seq<Book>, ghost order: seq<string>)
      ensures |order| == |r| == |books|
      ensures forall i :: 0 <= i < |order| ==> order[i] in books && r[i] == books[order[i]]
      ensures forall i, j :: 0 <= i < j < |order| ==> order[i] != order[j]
      ensures forall k :: k in books ==> k in order
      ensures forall b :: b in r <==> b in books.Values
    {
      r, order := ValuesInSomeOrder(books);
      forall b | b in books.Values ensures b in r {
        var k :| k in books && books[k] == b;
        var i :| 0 <= i < |order| && order[i] == k;
        assert r[i] == b;
      }
    }

    /** findOne: the mapped record, or null. */
    method FindOne(id: string) returns (r: Option<Book>)
      ensures r.Some? <==> id in books
      ensures r.Some? ==> r.value == books[id]
    {
      r := if id in books then Some(books[id]) else None;
    }

    /** create. While fewer than 2^64 creates have run, the id is new, so
        the map grows by one. */
    method Create(dto: CreateBookDto) returns (r: Book)
      requires Valid()
      modifies this
      ensures Valid()
      ensures r == FromDto(IntToString(old(idCounter)), dto)
      ensures books == old(books)[r.id := r]
      ensures idCounter == Wrap64(old(idCounter) + 1) && issued == old(issued) + 1
      ensures old(issued) < Two64 ==> r.id !in old(books) && |books| == |old(books)| + 1
    {
      var id := IntToString(idCounter);
      ghost var n := issued + 1;
      r := FromDto(id, dto);
      NextIdIssued(books, serial, issued, idCounter, r);
      idCounter := Wrap64(idCounter + 1);
      books := books[id := r];
      serial := serial[id := n];
      issued := n;
    }

    /** update: null for an unknown id; otherwise the non-null DTO fields
        are set on the stored record, the others kept. */
    method Update(id: string, dto: UpdateBookDto) returns (r: Option<Book>)
      requires Valid()
      modifies this
      ensures Valid()
      ensures idCounter == old(idCounter) && issued == old(issued)
      ensures id !in old(books) ==> r.None? && books == old(books)
      ensures id in old(books) ==> r == Some(ApplyUpdate(old(books)[id], dto)) && books == old(books)[id := r.value]
    {
      r := None;
      if id in books {
        var book := ApplyUpdate(books[id], dto);
        ReplaceIssued(books, serial, issued, id, book);
        books := books[id := book];
        r := Some(book);
      }
    }

    /** delete: removes the entry when present, a no-op otherwise. */
    method Delete(id: string)
      requires Valid()
      modifies this
      ensures Valid()
      ensures books == old(books) - {id}
      ensures idCounter == old(idCounter) && issued == old(issued)
    {
      books := books - {id};
    }
  }
}
