/** The JSON glue of the C backend (backend/c/json.c): it reads the four
    optional string members of a decoded request object, calls the record
    store, and encodes records as objects of five string members.

    json-c's tokenizer and printer are not modelled. A decoded body is the
    map from each member name to the text json_object_get_string gives for
    it (a member whose value is JSON null gives NULL and is left out of the
    map; a value that is not an object gives no members), and `None` when
    json_tokener_parse fails. An encoded object is its list of members. */
module CJson {
  import opened Common
  import opened CBook

  type JsonFields = map<string, string>

  /** An encoded object: its members in the order they were added. */
  type JsonObject = seq<(string, string)>

  /** The member names of an encoded book, in the order book_to_json_string adds them. */
  const BookKeys: seq<string> := ["id", "title", "author", "description", "coverImageUrl"]

  /** The text a C string reads as: everything before the first NUL. */
  function CStr(s: string): (r: string)
    ensures r <= s && '\0' !in r
    ensures |r| < |s| ==> s[|r|] == '\0'
  {
    if s == [] || s[0] == '\0' then [] else [s[0]] + CStr(s[1..])
  }

  /** The names of an object's members, in order. */
  function Keys(o: JsonObject): (r: seq<string>)
    ensures |r| == |o| && forall i :: 0 <= i < |o| ==> r[i] == o[i].0
  {
    seq(|o|, i requires 0 <= i < |o| => o[i].0)
  }

  /** No member name occurs twice. */
  predicate DistinctKeys(o: JsonObject)
  {
    forall i, j :: 0 <= i < j < |o| ==> o[i].0 != o[j].0
  }

  /** What a reader of an encoded object gets back: each member's name
      mapped to its value. */
  function Decode(o: JsonObject): (m: JsonFields)
    requires DistinctKeys(o)
    ensures forall i :: 0 <= i < |o| ==> o[i].0 in m && m[o[i].0] == o[i].1
    ensures forall k :: k in m ==> k in Keys(o)
  {
    if o == [] then map[] else Decode(o[1..])[o[0].0 := o[0].1]
  }

  /** The field of a record that the member called `key` carries. */
  function FieldOf(b: Book, key: string): string
  {
    match key
    case "id" => b.id
    case "title" => b.title
    case "author" => b.author
    case "description" => b.description
    case "coverImageUrl" => b.coverImageUrl
    case _ => ""
  }

  /** get_json_string_field: a copy of the member's text, or NULL when the
      member is missing or its text is empty. */
  function GetJsonStringField(obj: JsonFields, key: string): (r: Option<string>)
    ensures r.Some? <==> key in obj && CStr(obj[key]) != ""
    ensures r.Some? ==> r.value != "" && '\0' !in r.value && r.value <= obj[key]
    ensures r.Some? ==> r.value == CStr(obj[key])
  {
    if key in obj && CStr(obj[key]) != "" then Some(CStr(obj[key])) else None
  }

  /** The four fields create_book_json and update_book_json hand to the store. */
  datatype Fields = Fields(title: Option<string>, author: Option<string>,
                           description: Option<string>, coverImageUrl: Option<string>)

  /** `f` is what the field reader yields for `key`: the member's text up
      to its first NUL when that is non-empty, and NULL otherwise. */
  predicate ReadsMember(f: Option<string>, obj: JsonFields, key: string)
  {
    && (f.Some? <==> key in obj && CStr(obj[key]) != "")
    && (f.Some? ==> f.value == CStr(obj[key]))
  }

  /** The four reads of create_book_json and update_book_json, one per
      record field, each under the field's JSON name. */
  function ExtractFields(obj: JsonFields): (r: Fields)
    ensures ReadsMember(r.title, obj, "title") && ReadsMember(r.author, obj, "author")
    ensures ReadsMember(r.description, obj, "description") && ReadsMember(r.coverImageUrl, obj, "coverImageUrl")
  {
    Fields(GetJsonStringField(obj, "title"), GetJsonStringField(obj, "author"),
           GetJsonStringField(obj, "description"), GetJsonStringField(obj, "coverImageUrl"))
  }

  /** book_to_json_string: exactly the five members, each carrying the
      record's field as a string. */
  function BookToJson(b: Book): (r: JsonObject)
    ensures Keys(r) == BookKeys && DistinctKeys(r)
    ensures forall i :: 0 <= i < |r| ==> r[i].1 == FieldOf(b, r[i].0)
  {
    [("id", b.id), ("title", b.title), ("author", b.author),
     ("description", b.description), ("coverImageUrl", b.coverImageUrl)]
  }

  /** The array get_all_books_json builds: one encoded object per record. */
  function BooksToJson(s: seq<Book>): (r: seq<JsonObject>)
    ensures |r| == |s| && forall i :: 0 <= i < |s| ==> r[i] == BookToJson(s[i])
  {
    if s == [] then [] else [BookToJson(s[0])] + BooksToJson(s[1..])
  }

  /** get_book_by_id_json on a store holding `s`. */
  function GetByIdJson(s: seq<Book>, id: string): (r: Option<JsonObject>)
    ensures r.None? <==> FirstIndex(s, id).None?
    ensures r.Some? ==> r.value == BookToJson(s[FirstIndex(s, id).value])
  {
    match FirstIndex(s, id)
    case None => None
    case Some(i) => Some(BookToJson(s[i]))
  }

  /** create_book_json on a store holding `s`; `body` is what the parser made of the request. */
  function CreateJson(s: seq<Book>, body: Option<JsonFields>, newId: string): (r: Step<Option<JsonObject>>)
    requires |newId| == UuidLength
    ensures body.None? ==> r == Step(None, s)
    ensures body.Some? ==>
              var f := ExtractFields(body.value);
              var c := Create(s, f.title, f.author, f.description, f.coverImageUrl, newId);
              && r.contents == c.contents
              && (r.result.None? <==> c.result.None?)
              && (r.result.Some? ==> r.result.value == BookToJson(c.result.value))
  {
    match body
    case None => Step(None, s)
    case Some(obj) =>
      var f := ExtractFields(obj);
      var c := Create(s, f.title, f.author, f.description, f.coverImageUrl, newId);
      Step(if c.result.None? then None else Some(BookToJson(c.result.value)), c.contents)
  }

  /** update_book_json on a store holding `s`. */
  function UpdateJson(s: seq<Book>, id: string, body: Option<JsonFields>): (r: Step<Option<JsonObject>>)
    ensures body.None? ==> r == Step(None, s)
    ensures body.Some? ==>
              var f := ExtractFields(body.value);
              var u := Update(s, id, f.title, f.author, f.description, f.coverImageUrl);
              && r.contents == u.contents
              && (r.result.None? <==> u.result.None?)
              && (r.result.Some? ==> r.result.value == BookToJson(u.result.value))
  {
    match body
    case None => Step(None, s)
    case Some(obj) =>
      var f := ExtractFields(obj);
      var u := Update(s, id, f.title, f.author, f.description, f.coverImageUrl);
      Step(if u.result.None? then None else Some(BookToJson(u.result.value)), u.contents)
  }

  // ---------------------------------------------------------------------
  // Properties of the glue.

  /** No empty string reaches the store through the glue, for any field. */
  lemma ExtractedFieldsNeverEmpty(obj: JsonFields)
    ensures var f := ExtractFields(obj);
            && f.title != Some("") && f.author != Some("")
            && f.description != Some("") && f.coverImageUrl != Some("")
  {
  }

  /** A body whose title or author is missing or empty makes create fail
      and leaves the store as it was. */
  lemma {:induction false} CreateNeedsTitleAndAuthor(s: seq<Book>, obj: JsonFields, newId: string)
    requires |newId| == UuidLength
    requires "title" !in obj || CStr(obj["title"]) == "" || "author" !in obj || CStr(obj["author"]) == ""
    ensures CreateJson(s, Some(obj), newId) == Step(None, s)
  {
  }

  /** `{"description":""}` (or `{"coverImageUrl":""}`) sent to update changes
      nothing although the id is known: the empty string is dropped before
      the store sees it. */
  lemma {:induction false} EmptyOptionalFieldDoesNotClear(s: seq<Book>, id: string, key: string)
    requires key == "description" || key == "coverImageUrl"
    requires FirstIndex(s, id).Some?
    ensures var u := UpdateJson(s, id, Some(map[key := ""]));
            u.result == Some(BookToJson(s[FirstIndex(s, id).value])) && u.contents == s
  {
    var f := ExtractFields(map[key := ""]);
    assert CStr("") == "";
    assert f == Fields(None, None, None, None);
    var i := FirstIndex(s, id).value;
    assert ApplyUpdate(s[i], None, None, None, None) == s[i];
    assert s[i := s[i]] == s;
  }

  /** An unparseable body reaches neither create nor update: both report
      NULL and the store is untouched. */
  lemma UnparseableBodyChangesNothing(s: seq<Book>, id: string, newId: string)
    requires |newId| == UuidLength
    ensures CreateJson(s, None, newId) == Step(None, s)
    ensures UpdateJson(s, id, None) == Step(None, s)
  {
  }

  /** Decoding an encoded record gives back its fields: exactly the five
      names, each mapped to the record's value. */
  lemma {:induction false} DecodeBookToJson(b: Book)
    ensures var m := Decode(BookToJson(b));
            && m.Keys == set k | k in BookKeys
            && forall k :: k in m ==> m[k] == FieldOf(b, k)
  {
    var o := BookToJson(b);
    var m := Decode(o);
    forall k | k in BookKeys ensures k in m && m[k] == FieldOf(b, k) {
      var i :| 0 <= i < |BookKeys| && BookKeys[i] == k;
      assert o[i].0 == k;
    }
  }

  /** A text as get_json_string_field reports it: absent when empty. */
  function NonEmpty(v: string): Option<string>
  {
    if v == "" then None else Some(v)
  }

  /** The fields extracted from a record's own encoding are its fields,
      the empty ones absent. */
  lemma ExtractOwnEncoding(b: Book)
    requires '\0' !in b.title && '\0' !in b.author
    requires '\0' !in b.description && '\0' !in b.coverImageUrl
    ensures ExtractFields(Decode(BookToJson(b)))
            == Fields(NonEmpty(b.title), NonEmpty(b.author), NonEmpty(b.description), NonEmpty(b.coverImageUrl))
  {
    var m := Decode(BookToJson(b));
    DecodeBookToJson(b);
    assert BookKeys[1] == "title" && BookKeys[2] == "author";
    assert BookKeys[3] == "description" && BookKeys[4] == "coverImageUrl";
    ReadBack(m, "title", b.title);
    ReadBack(m, "author", b.author);
    ReadBack(m, "description", b.description);
    ReadBack(m, "coverImageUrl", b.coverImageUrl);
  }

  /** Sending a stored record's own encoding back as an update body leaves
      the record as it is: encoding and the update glue are inverse on
      live records. */
  lemma ResubmitIsNoOp(b: Book)
    requires WellFormed(b) && '\0' !in b.title && '\0' !in b.author
    requires '\0' !in b.description && '\0' !in b.coverImageUrl
    ensures var f := ExtractFields(Decode(BookToJson(b)));
            ApplyUpdate(b, f.title, f.author, f.description, f.coverImageUrl) == b
  {
    ExtractOwnEncoding(b);
    var r := ApplyUpdate(b, Some(b.title), Some(b.author), NonEmpty(b.description), NonEmpty(b.coverImageUrl));
    assert r.title == b.title && r.author == b.author;
    assert r.description == b.description && r.coverImageUrl == b.coverImageUrl;
  }

  /** A member holding a NUL-free text `v` is read back as `v`, or as absent
      when `v` is empty. */
  lemma ReadBack(m: JsonFields, key: string, v: string)
    requires key in m && m[key] == v && '\0' !in v
    ensures GetJsonStringField(m, key) == if v == "" then None else Some(v)
  {
    CStrOfCString(v);
  }

  /** A string without NUL reads back as itself. */
  lemma {:induction false} CStrOfCString(s: string)
    requires '\0' !in s
    ensures CStr(s) == s
  {
    if s != [] {
      assert '\0' !in s[1..] by {
        forall c | c in s[1..] ensures c != '\0' { assert c in s; }
      }
      CStrOfCString(s[1..]);
    }
  }

  // ---------------------------------------------------------------------
  // The glue as it runs against the store object.

  /** get_all_books_json: one object per record, in store order. */
  method GetAllBooksJson(store: BookStore) returns (r: seq<JsonObject>)
    requires store.Valid()
    ensures |r| == store.bookCount
    ensures r == BooksToJson(store.Contents())
  {
    var bookList, count := store.GetAllBooks();
    r := [];
    for i := 0 to count
      invariant |r| == i
      invariant forall k :: 0 <= k < i ==> r[k] == BookToJson(bookList[k])
    {
      r := r + [BookToJson(bookList[i])];
    }
  }

  /** get_book_by_id_json. */
  method GetBookByIdJson(store: BookStore, id: string) returns (r: Option<JsonObject>)
    requires store.Valid()
    ensures r == GetByIdJson(store.Contents(), id)
  {
    var found := store.GetBookById(id);
    if found.None? {
      return None;
    }
    r := Some(BookToJson(store.books[found.value]));
  }

  /** create_book_json. */
  method CreateBookJson(store: BookStore, body: Option<JsonFields>, newId: string) returns (r: Option<JsonObject>)
    requires store.Valid() && |newId| == UuidLength
    modifies store, store.books
    ensures store.Valid()
    ensures r == CreateJson(old(store.Contents()), body, newId).result
    ensures store.Contents() == CreateJson(old(store.Contents()), body, newId).contents
    ensures body.None? ==> store.bookCount == old(store.bookCount) && store.books[..] == old(store.books[..])
  {
    if body.None? {
      return None;
    }
    var f := ExtractFields(body.value);
    var created := store.CreateBook(f.title, f.author, f.description, f.coverImageUrl, newId);
    if created.None? {
      return None;
    }
    r := Some(BookToJson(created.value));
  }

  /** update_book_json. */
  method UpdateBookJson(store: BookStore, id: string, body: Option<JsonFields>) returns (r: Option<JsonObject>)
    requires store.Valid()
    modifies store.books
    ensures store.Valid()
    ensures r == UpdateJson(old(store.Contents()), id, body).result
    ensures store.Contents() == UpdateJson(old(store.Contents()), id, body).contents
    ensures body.None? ==> store.books[..] == old(store.books[..])
  {
    if body.None? {
      return None;
    }
    var f := ExtractFields(body.value);
    var updated := store.UpdateBook(id, f.title, f.author, f.description, f.coverImageUrl);
    if updated.None? {
      return None;
    }
    r := Some(BookToJson(updated.value));
  }
}
