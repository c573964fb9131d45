/** backend/nestjs/src/database/in-memory.service.ts: an array of records
    searched by first match, each miss thrown as a NotFoundException.
    Records are objects: the validation pipe checks the create fields but
    lets other keys through, and the spread copies every one of them. */
module NestInMemory {
  import opened Common
  import opened DynamicRecords

  /** A NotFoundException and its message. */
  datatype NotFound = NotFound(message: string)

  /** The message findOne throws with: the id sits between a fixed prefix
      and suffix, so it can be read back. */
  function NotFoundMessage(id: string): (r: string)
    ensures |r| == |id| + 23 && r[13..13 + |id|] == id
  {
    "Book with ID " + id + " not found"
  }

  /** After removing the only record with an id, nothing is found by it,
      so a second delete or a look-up throws. */
  lemma DeleteThenNotFound(s: seq<Record>, id: string)
    requires FindFirst(s, id).Some? && UniqueId(s, id)
    ensures FindFirst(RemoveAt(s, FindFirst(s, id).value), id).None?
  {
    RemoveFirstIsRemoveAll(s, id);
    RemoveAllRemovesId(s, id);
  }

  /** Delete keeps every other record, in order; a second record with the
      same id stays findable. */
  lemma DeleteKeepsOrder(s: seq<Record>, id: string)
    requires FindFirst(s, id).Some?
    ensures var i := FindFirst(s, id).value;
            RemoveAt(s, i) == s[..i] + s[i + 1..] && |RemoveAt(s, i)| == |s| - 1
    ensures var i := FindFirst(s, id).value;
            forall j :: i < j < |s| && HasId(s[j], id) ==> FindFirst(RemoveAt(s, i), id).Some?
  {
    var i := FindFirst(s, id).value;
    var r := RemoveAt(s, i);
    forall j | i < j < |s| && HasId(s[j], id) ensures FindFirst(r, id).Some? {
      assert r[j - 1] == s[j];
    }
  }

  class InMemoryService {
    var books: seq<Record>

    constructor ()
      ensures books == []
    {
      books := [];
    }

    /** findAll: the array itself, in insertion order. */
    method FindAll() returns (r: seq<Record>)
      ensures r == books
    {
      r := books;
    }

    /** findOne: the first record with the id, or NotFound. */
    method FindOne(id: string) returns (r: Result<Record, NotFound>)
      ensures r.Success? <==> FindFirst(books, id).Some?
      ensures r.Success? ==> r.value == books[FindFirst(books, id).value]
      ensures r.Failure? ==> r.error == NotFound(NotFoundMessage(id))
    {
      match FindFirst(books, id)
      case None => r := Failure(NotFound(NotFoundMessage(id)));
      case Some(i) => r := Success(books[i]);
    }

    /** create: a fresh UUID first, the DTO spread after it, pushed at the end. */
    method Create(dto: Record, freshId: string) returns (r: Record)
      modifies this
      ensures r == IdThenSpread(freshId, dto)
      ensures books == old(books) + [r]
    {
      r := IdThenSpread(freshId, dto);
      books := books + [r];
    }

    /** update: NotFound for an unknown id; otherwise the first match
        becomes itself overridden by the DTO, in place. */
    method Update(id: string, dto: Record) returns (r: Result<Record, NotFound>)
      modifies this
      ensures FindFirst(old(books), id).None? ==>
                r == Failure(NotFound(NotFoundMessage(id))) && books == old(books)
      ensures FindFirst(old(books), id).Some? ==>
                var i := FindFirst(old(books), id).value;
                r == Success(Merge(old(books)[i], dto)) && books == old(books)[i := r.value]
    {
      var index := FindFirst(books, id);
      if index.None? {
        return Failure(NotFound(NotFoundMessage(id)));
      }
      var i := index.value;
      books := books[i := Merge(books[i], dto)];
      r := Success(books[i]);
    }

    /** delete: NotFound for an unknown id; otherwise `splice(index, 1)`
        removes the first match. */
    method Delete(id: string) returns (r: Result<Unit, NotFound>)
      modifies this
      ensures FindFirst(old(books), id).None? ==>
                r == Failure(NotFound(NotFoundMessage(id))) && books == old(books)
      ensures FindFirst(old(books), id).Some? ==>
                r == Success(Unit) && books == RemoveAt(old(books), FindFirst(old(books), id).value)
    {
      var index := FindFirst(books, id);
      if index.None? {
        return Failure(NotFound(NotFoundMessage(id)));
      }
      books := RemoveAt(books, index.value);
      r := Success(Unit);
    }
  }
}
