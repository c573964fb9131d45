# Book API stores and the C request router, in Dafny

This project models the storage core of a multi-language "Book API": a
REST service that keeps book records. A record has an id, title, author,
description and cover image URL. The service is reachable under `/book`
and `/book/<id>`. Six backends are modelled, each in the form its source
takes.

* **C backend.** The code works by mutating state, so the model is
  imperative:
  * `CBook` is the fixed array of 1000 records with a live count
    (`backend/c/book.c`). Each field is a fixed-size, NUL-terminated
    buffer, so the model truncates every copy.
  * `CJson` is the JSON glue (`backend/c/json.c`). It renders records as
    JSON objects and reads the request fields, treating an empty string
    as an absent field.
  * `CRouter` is `answer_to_connection` (`backend/c/main.c`):
    * the CORS preflight;
    * the per-connection upload buffer, kept across callbacks;
    * the route chain, the status codes and the 256-byte not-found message;
    * the response headers and the cleanup after a response.

  Every method is proved to equal a value-level function of the old
  state: `Create`/`Update`/`Delete`, `CreateJson`/`UpdateJson`, and
  `Dispatch`/`Serve`. Lemmas about those functions state what the store
  and the router promise.
* **C# `BookService`, Java `BookService`.** Each is a class holding a map
  keyed by id and a numeric counter whose decimal text is the next id.
  * The C# counter is an `int` that wraps at 2^31.
  * The Java counter is an `AtomicLong` that wraps at 2^63.

  `Decimal` models the decimal rendering and the wrap-around, and proves
  that ids are unique within any window of 2^32 (2^64) creates.
* **NestJS `InMemoryService`, Node `database.js`, FastAPI `database.py`.**
  These store dynamic records (`DynamicRecords.Record`, a map from keys
  to JSON values) in a list. The model covers:
  * the two spread orders. JavaScript puts the id before the body, so an
    "id" in the body overrides it. Python puts the id after the body, so
    the id always wins;
  * first-match lookup and update;
  * delete by splice (one element) and delete by filter (every match).

Things outside the model become parameters:
* the UUID a create would generate (`newId`, `freshId`);
* the JSON parser of the C backend (`parse`, a function from the request
  text to an optional object);
* the request chunks libmicrohttpd delivers.

## Model

| member | source | states |
|---|---|---|
| `CBook.Truncate` | backend/c/book.c:53-54 | a bounded copy into a field of `size` bytes keeps the longest prefix of at most `size - 1` characters |
| `CBook.Present` | backend/c/book.c:46 | an argument passes the NULL-or-empty test exactly when it is given and its copy into the title or author field is non-empty |
| `CBook.NewBook` | backend/c/book.c:50-71 | a new record has the given id and each text cut to its field size; an absent description or cover URL is empty; the record fits its fields |
| `CBook.ApplyUpdate` | backend/c/book.c:101-119 | the id is kept; a non-empty title/author and any present description/cover URL replace the field (cut to size); the rest stay; fitting fields stay fitting |
| `CBook.FirstIndex` | backend/c/book.c:86-93 | the position of the first record whose id equals `id`, and none earlier has it; None exactly when no record has it |
| `CBook.Create` | backend/c/book.c:41-75 | fails, leaving the store unchanged, exactly when the store holds 1000 records or the title or author is missing or empty; otherwise appends the new record |
| `CBook.Update` | backend/c/book.c:95-122 | fails exactly when no record has the id; otherwise rewrites that first record in place and changes nothing else |
| `CBook.Delete` | backend/c/book.c:123-135 | 1 exactly when some record has the id, and then that first match is cut out and the rest keep their order; 0 and no change otherwise |
| `CBook.CreatePreservesInvariant` | backend/c/book.c:41-75 | create keeps at most 1000 live records, each fitting its fields with non-empty title and author |
| `CBook.UpdatePreservesInvariant` | backend/c/book.c:95-122 | update keeps the store invariant |
| `CBook.DeletePreservesInvariant` | backend/c/book.c:123-135 | delete keeps the store invariant |
| `CBook.CreateThenGet` | backend/c/book.c:86-93 | after a create with a fresh id, looking the id up finds the new record in the last slot |
| `CBook.CreatePreservesDistinctIds` | backend/c/book.c:50-51 | a create with a fresh id keeps all ids distinct |
| `CBook.UpdatePreservesDistinctIds` | backend/c/book.c:95-122 | update never changes an id, so distinct ids stay distinct |
| `CBook.DeletePreservesDistinctIds` | backend/c/book.c:123-135 | delete keeps all ids distinct |
| `CBook.DeleteTwice` | backend/c/book.c:123-135 | with distinct ids, a delete removes the id and a second delete of it returns 0 |
| `CBook.DeleteKeepsOthers` | backend/c/book.c:126-131 | delete removes exactly one record (as multisets) and shifts the later ones down by one slot |
| `CBook.BlankTitleAuthorKeepsThem` | backend/c/book.c:101-109 | an update with an empty title and no author leaves both unchanged |
| `CBook.BookStore.constructor` | backend/c/book.c:13-14 | the static storage starts empty and zero-filled |
| `CBook.BookStore.InitBookStorage` | backend/c/book.c:16-19 | resets the count to 0 and zeroes every slot |
| `CBook.BookStore.CreateBook` | backend/c/book.c:41-75 | the result and new contents are those of `Create`; on success only slot `book_count` changes |
| `CBook.BookStore.GetAllBooks` | backend/c/book.c:77-84 | returns the count and the live records in index order |
| `CBook.BookStore.GetBookById` | backend/c/book.c:86-93 | the loop returns the index of the first record with the id (the `FirstIndex`) |
| `CBook.BookStore.UpdateBook` | backend/c/book.c:95-122 | the result and new contents are those of `Update`; only the found slot changes |
| `CBook.BookStore.ShiftDown` | backend/c/book.c:127-129 | the inner loop moves every later record down one slot; the slots before it and the last live slot keep their records |
| `CBook.BookStore.RemoveSlot` | backend/c/book.c:126-133 | removing live slot `i` keeps the store invariant, lowers the count by one and leaves the other records in order |
| `CBook.BookStore.DeleteBookById` | backend/c/book.c:123-135 | the result and new contents are those of `Delete`; the array after the shift, including its stale last slot, is stated in full |
| `CJson.CStr` | backend/c/json.c:55 | the text a C string reader sees: the prefix before the first NUL |
| `CJson.Decode` | backend/c/json.c:54 | a parsed object with distinct keys maps every member's key to its value, and no other key |
| `CJson.GetJsonStringField` | backend/c/json.c:52-59 | a field is read exactly when its key is present with a non-empty text; that text has no NUL, is a prefix of the member's value and is exactly the C string the value holds |
| `CJson.ExtractFields` | backend/c/json.c:67-70 | each of the four fields is read, as by `get_json_string_field`, from its own key |
| `CJson.BookToJson` | backend/c/json.c:8-20 | the object has the keys id, title, author, description, coverImageUrl in that order, each holding that field |
| `CJson.BooksToJson` | backend/c/json.c:22-42 | one object per record, in store order |
| `CJson.GetByIdJson` | backend/c/json.c:44-50 | none exactly when no record has the id; otherwise the first match rendered |
| `CJson.CreateJson` | backend/c/json.c:61-85 | an unparseable body changes nothing; otherwise the four fields are read and `Create` decides the result and the new store |
| `CJson.UpdateJson` | backend/c/json.c:87-111 | an unparseable body changes nothing; otherwise the four fields are read and `Update` decides |
| `CJson.ExtractedFieldsNeverEmpty` | backend/c/json.c:56 | an empty field value is passed on as absent, never as an empty string |
| `CJson.CreateNeedsTitleAndAuthor` | backend/c/json.c:67-72 | a body without a non-empty title or author creates nothing |
| `CJson.EmptyOptionalFieldDoesNotClear` | backend/c/json.c:95-98 | updating with an empty description or cover URL leaves the record unchanged |
| `CJson.UnparseableBodyChangesNothing` | backend/c/json.c:62-65 | create and update of an unparseable body return none and keep the store |
| `CJson.DecodeBookToJson` | backend/c/json.c:8-20 | decoding a rendered record gives back exactly the five keys and each field |
| `CJson.ExtractOwnEncoding` | backend/c/json.c:93-96 | reading the fields of a rendered NUL-free record gives each non-empty field, and absent for each empty one |
| `CJson.ResubmitIsNoOp` | backend/c/json.c:87-98 | sending a stored record's own JSON back as an update leaves it unchanged |
| `CJson.ReadBack` | backend/c/json.c:52-59 | a NUL-free member is read back as itself, or as absent when it is empty |
| `CJson.CStrOfCString` | backend/c/json.c:55 | a NUL-free text reads as itself |
| `CJson.GetAllBooksJson` | backend/c/json.c:22-42 | the loop renders every live record, in order |
| `CJson.GetBookByIdJson` | backend/c/json.c:44-50 | equals `GetByIdJson` on the store |
| `CJson.CreateBookJson` | backend/c/json.c:61-85 | the result and new store are those of `CreateJson` |
| `CJson.UpdateBookJson` | backend/c/json.c:87-111 | the result and new store are those of `UpdateJson` |
| `CRouter.NotFoundText` | backend/c/main.c:78-80 | the not-found message always fits the 256-byte buffer |
| `CRouter.Finish` | backend/c/main.c:143-154 | a missing response text becomes a 500 with the internal-error text; every such response carries the JSON content type and the three CORS headers |
| `CRouter.RouteOf` | backend/c/main.c:69-140 | an item route has the URL "/book/" + its id; the collection routes have the URL "/book"; a matched route has method GET, POST, PUT or DELETE |
| `CRouter.ListResponse` | backend/c/main.c:69-72 | 200 with the JSON headers and one rendered object per record, in store order; the store is unchanged |
| `CRouter.GetResponse` | backend/c/main.c:74-83 | 200 exactly when some record has the id, with the first match rendered; otherwise 404 with the not-found message; the store is unchanged |
| `CRouter.CreateResponse` | backend/c/main.c:85-99 | no data gives 400 "No data provided"; 201 exactly when the create succeeds, and then one record with the new id is appended and rendered; otherwise 400 and no change |
| `CRouter.UpdateResponse` | backend/c/main.c:101-116 | no data gives 400; 200 exactly when the body parses and the id is stored, and then only that record changes, keeping its id; otherwise 404 with the not-found message and no change |
| `CRouter.DeleteResponse` | backend/c/main.c:118-135 | 204 exactly when the id is stored, and then its first match is cut out; otherwise 404 with the not-found message and no change |
| `CRouter.Dispatch` | backend/c/main.c:68-140 | GET and unmatched requests leave the store unchanged; every response but the 204 has the JSON headers; the status is never 500; an unmatched request gets 404 "Route not found" |
| `CRouter.Serve` | backend/c/main.c:28-140 | OPTIONS answers the preflight; only POST, PUT and DELETE change the store; the status is never 500 |
| `CRouter.AppendChunk` | backend/c/main.c:51-63 | the first chunk is copied into a new buffer; a later one is appended after the old contents; either way the buffer is NUL-terminated and `size` is the text's length |
| `CRouter.PhaseOf` | backend/c/main.c:28-66 | preflight exactly for OPTIONS; set-up exactly for the first call of a POST or PUT; a response only once no upload data is pending |
| `CRouter.AfterResponse` | backend/c/main.c:159-167 | the connection info is released exactly when one was set up and the DELETE early return was not taken; the marker stays and is set on a first call |
| `CRouter.ConcatAppend` | backend/c/main.c:59-62 | appending a chunk extends the joined text and its size by that chunk |
| `CRouter.ConcatLength` | backend/c/main.c:61 | the size kept is the joined text's length |
| `CRouter.AppendChunkHolds` | backend/c/main.c:51-63 | after any number of non-empty chunks the buffer holds their concatenation, NUL-terminated, with the size their total length |
| `CRouter.BufferSizeIsSum` | backend/c/main.c:57-61 | the recorded size is the sum of the chunk sizes |
| `CRouter.CStrTerminated` | backend/c/main.c:56 | the terminator after the buffer does not change the text read from it |
| `CRouter.BodyTextOfHolds` | backend/c/main.c:86-88 | the text handed to the parser is the joined chunks, or none when no chunk arrived |
| `CRouter.Connection.constructor` | backend/c/main.c:38-39 | a new connection starts with no per-connection state |
| `CRouter.RouteRequest` | backend/c/main.c:68-140 | the route chain's response and the new store are those of `Dispatch`; it reports when the DELETE early return was taken |
| `CRouter.RespondGet` | backend/c/main.c:74-83 | the found record with 200, or the not-found message with 404 |
| `CRouter.RespondCreate` | backend/c/main.c:85-99 | no data gives 400 "No data provided"; a failed create gives 400 "Title and author are required"; a created record gives 201 |
| `CRouter.RespondUpdate` | backend/c/main.c:101-116 | no data gives 400; a failed update gives 404 with the not-found message; otherwise 200 with the record |
| `CRouter.RespondDelete` | backend/c/main.c:118-135 | a removed record gives 204 with an empty body and only the CORS headers; otherwise 404 |
| `CRouter.AnswerToConnection` | backend/c/main.c:16-170 | each phase of the callback: the preflight answers at once; a POST/PUT first call only sets up the buffer; a chunk is appended and nothing is answered; the final call answers as `Dispatch` and frees the buffer (except after a 204) |
| `CRouter.ServeRequest` | backend/c/main.c:28-167 | driving the callback through a whole request answers as `Serve` on the joined chunks |
| `CRouter.RouteTable` | backend/c/main.c:69-140 | the routes are exactly GET/POST on "/book" and GET/PUT/DELETE on URLs starting "/book/", whose id is the rest of the URL |
| `CRouter.IdOfBookUrl` | backend/c/main.c:75 | the id of "/book/" + id is exactly id |
| `CRouter.HeadersOfEveryResponse` | backend/c/main.c:28-36 | every response carries the three CORS headers, and the JSON content type exactly when it has a body |
| `CRouter.OptionsShortCircuits` | backend/c/main.c:28-36 | any OPTIONS request answers 200 with an empty body and changes nothing |
| `CRouter.UnparseablePutIsNotFound` | backend/c/main.c:104-111 | a PUT whose body does not parse answers 404 with the not-found message |
| `CRouter.FailedPostIsBadRequest` | backend/c/main.c:88-91 | a POST whose body does not parse, or one to a full store, answers 400 "Title and author are required" |
| `CRouter.NoBodyIsBadRequest` | backend/c/main.c:95-98 | a POST or PUT without data answers 400 "No data provided" |
| `CRouter.CreateDune` | backend/c/main.c:85-94 | a POST of title "Dune" and author "Herbert" answers 201 with the new record, which is appended with empty description and cover URL |
| `CRouter.PostThenGet` | backend/c/main.c:74-94 | after a created POST, a GET of the new id answers 200 with the same body |
| `CRouter.DeleteTwiceResponses` | backend/c/main.c:118-134 | with distinct ids, the first DELETE answers 204 and the second 404, changing nothing |
| `CRouter.GetUnknownId` | backend/c/main.c:74-83 | a GET of an unknown id answers 404; the message is complete for ids up to 220 characters and cut to 255 characters beyond |
| `CRouter.PutUnknownIdIsNotFound` | backend/c/main.c:101-111 | a PUT with data to an id not stored answers 404 with the not-found message and changes nothing, whatever the body |
| `CRouter.PutKnownIdIsOk` | backend/c/main.c:101-111 | a PUT of a parseable body to a stored id answers 200 with the updated record, which replaces the first match |
| `CRouter.PostWithoutTitleOrAuthorIsBadRequest` | backend/c/main.c:85-91 | a parseable POST body without a non-empty title or author answers 400 "Title and author are required" and changes nothing |
| `CRouter.SuccessfulPostIsCreated` | backend/c/main.c:85-94 | a POST with a non-empty title and author to a store with room answers 201 with the new record, which is appended |
| `CRouter.UnmatchedRouteIsNotFound` | backend/c/main.c:136-140 | outside the route table every request but OPTIONS answers 404 "Route not found" and changes nothing |
| `Common.ValuesInSomeOrder` | backend/csharp/BookService.cs:10 | lists each map entry's value exactly once, following some order of the keys |
| `Decimal.IntToString` | backend/csharp/BookService.cs:21 | the decimal text is never empty |
| `Decimal.ParseNatToString` | backend/java/src/main/java/com/example/bookapi/BookService.java:21 | reading the digits of n back gives n |
| `Decimal.ParseIntToString` | backend/csharp/BookService.cs:21 | the decimal text of a signed value is well formed and reads back as that value |
| `Decimal.IntToStringInjective` | backend/csharp/BookService.cs:21 | different values have different decimal texts |
| `Decimal.Wrap32` | backend/csharp/BookService.cs:6 | a C# `int` counter stays in its 32-bit range and counts normally within it |
| `Decimal.Wrap64` | backend/java/src/main/java/com/example/bookapi/BookService.java:10 | a Java `long` counter stays in its 64-bit range and counts normally within it |
| `Decimal.Wrap32InjectiveWindow` | backend/csharp/BookService.cs:21 | counter values that differ by less than 2^32 are different |
| `Decimal.Wrap64InjectiveWindow` | backend/java/src/main/java/com/example/bookapi/BookService.java:21 | counter values that differ by less than 2^64 are different |
| `Decimal.Wrap32Step` | backend/csharp/BookService.cs:21 | incrementing the wrapped counter is wrapping the incremented count |
| `Decimal.Wrap64Step` | backend/java/src/main/java/com/example/bookapi/BookService.java:21 | the same for the 64-bit counter |
| `TypedRecords.FromDto` | backend/csharp/BookService.cs:22-29 | a created record has the given id and the DTO's four fields |
| `TypedRecords.ApplyUpdateFields` | backend/csharp/BookService.cs:41-44 | each non-null DTO field replaces the record's; null fields and the id are kept |
| `TypedRecords.ApplyUpdate` | backend/csharp/BookService.cs:41-44 | the id is kept, and a field changes only to the value the DTO supplies for it |
| `TypedRecords.ApplyUpdateIdempotent` | backend/java/src/main/java/com/example/bookapi/BookService.java:29-34 | applying the same update twice is applying it once |
| `TypedRecords.EmptyUpdateIsIdentity` | backend/csharp/BookService.cs:41-44 | an all-null update changes nothing |
| `TypedRecords.FullUpdateIsRecreate` | backend/java/src/main/java/com/example/bookapi/BookService.java:29-34 | an update setting all four fields gives the record a create with those fields would, under the same id |
| `CSharpBookService.IssuedId` | backend/csharp/BookService.cs:21 | the n-th id is a decimal integer text that reads back as the 32-bit counter's value, which is n until the counter overflows |
| `CSharpBookService.FirstIdIsOne` | backend/csharp/BookService.cs:6 | the first id issued is "1" |
| `CSharpBookService.IssuedIdsDistinct` | backend/csharp/BookService.cs:21 | any two of 2^32 consecutive creates get different ids |
| `CSharpBookService.IssuedIdsCountUp` | backend/csharp/BookService.cs:21 | before the counter overflows, the n-th id reads as n |
| `CSharpBookService.IdAfterInt32MaxIsNegative` | backend/csharp/BookService.cs:21 | the create after id "2147483647" issues "-2147483648" |
| `CSharpBookService.StoreIssued` | backend/csharp/BookService.cs:21-30 | storing the next record keeps every entry under its own issued id, and that id is new while fewer than 2^32 creates have run |
| `CSharpBookService.NextIdIssued` | backend/csharp/BookService.cs:21-30 | the counter's text is the next issued id, storing the record under it keeps the bookkeeping, and the counter steps on |
| `CSharpBookService.ReplaceIssued` | backend/csharp/BookService.cs:41-44 | an update keeps every entry under its own issued id, since the record keeps its id |
| `CSharpBookService.BookService.constructor` | backend/csharp/BookService.cs:5-6 | an empty dictionary and a counter at 1 |
| `CSharpBookService.BookService.FindAllAsync` | backend/csharp/BookService.cs:8-11 | the stored records, each once, listed in a key order that names every key exactly once; the i-th record is the one under the i-th key |
| `CSharpBookService.BookService.FindOneAsync` | backend/csharp/BookService.cs:13-17 | the record under the id, or null exactly when the id is not stored |
| `CSharpBookService.BookService.CreateAsync` | backend/csharp/BookService.cs:19-32 | stores and returns the DTO's record under the counter's old text and increments the counter with wrap-around; the dictionary grows by one while ids are fresh |
| `CSharpBookService.BookService.UpdateAsync` | backend/csharp/BookService.cs:34-47 | null and no change for an unknown id; otherwise the non-null fields are applied to the stored record, which is returned |
| `CSharpBookService.BookService.DeleteAsync` | backend/csharp/BookService.cs:49-53 | removes the id's entry if any, nothing else |
| `JavaBookService.IssuedId` | backend/java/src/main/java/com/example/bookapi/BookService.java:21 | the n-th id is a decimal integer text that reads back as the 64-bit counter's value, which is n until the counter overflows |
| `JavaBookService.IssuedIdsDistinct` | backend/java/src/main/java/com/example/bookapi/BookService.java:21 | any two of 2^64 consecutive creates get different ids |
| `JavaBookService.IssuedIdsIncrease` | backend/java/src/main/java/com/example/bookapi/BookService.java:21 | before overflow, the ids read as their create numbers, so they increase |
| `JavaBookService.StoreIssued` | backend/java/src/main/java/com/example/bookapi/BookService.java:21-23 | storing the next record keeps every entry under its own issued id, and that id is new while fewer than 2^64 creates have run |
| `JavaBookService.NextIdIssued` | backend/java/src/main/java/com/example/bookapi/BookService.java:21-23 | the counter's text is the next issued id, storing the record under it keeps the bookkeeping, and the counter steps on |
| `JavaBookService.ReplaceIssued` | backend/java/src/main/java/com/example/bookapi/BookService.java:30-33 | an update keeps every entry under its own issued id, since the record keeps its id |
| `JavaBookService.BookService.constructor` | backend/java/src/main/java/com/example/bookapi/BookService.java:9-10 | an empty map and a counter at 1 |
| `JavaBookService.BookService.FindAll` | backend/java/src/main/java/com/example/bookapi/BookService.java:12-14 | a new list of the stored records, each once, in a key order that names every key exactly once; the i-th record is the one under the i-th key |
| `JavaBookService.BookService.FindOne` | backend/java/src/main/java/com/example/bookapi/BookService.java:16-18 | the record under the id, or null exactly when the id is not stored |
| `JavaBookService.BookService.Create` | backend/java/src/main/java/com/example/bookapi/BookService.java:20-25 | stores and returns the DTO's record under the counter's old text and increments the counter with wrap-around; the map grows by one while ids are fresh |
| `JavaBookService.BookService.Update` | backend/java/src/main/java/com/example/bookapi/BookService.java:27-36 | null and no change for an unknown id; otherwise the non-null fields are applied to the stored record, which is returned |
| `JavaBookService.BookService.Delete` | backend/java/src/main/java/com/example/bookapi/BookService.java:38-40 | removes the id's entry if any, nothing else |
| `DynamicRecords.Merge` | backend/nodejs/database.js:110 | a merged record has every key of either side, the override's value winning |
| `DynamicRecords.IdThenSpread` | backend/nodejs/database.js:54 | the record has the body's keys and "id", and every body value, its "id" included, is kept |
| `DynamicRecords.SpreadThenId` | backend/fastapi/database.py:50 | the record has the body's keys and "id", and its "id" is the generated one |
| `DynamicRecords.IdThenSpreadId` | backend/nodejs/database.js:54 | with the id written first, a body "id" overrides it; without one the record has the generated id; all body keys are kept |
| `DynamicRecords.SpreadThenIdWins` | backend/fastapi/database.py:50 | with the id written last, the record always has the generated id, and every other body key |
| `DynamicRecords.MergeIdempotent` | backend/nestjs/src/database/in-memory.service.ts:35 | applying the same update twice is applying it once |
| `DynamicRecords.FindFirst` | backend/nodejs/database.js:106 | the first position whose record has the id, none earlier; none exactly when no record has it |
| `DynamicRecords.RemoveAll` | backend/nodejs/database.js:124 | the filter keeps only records without the id, never more than there were |
| `DynamicRecords.RemoveAllKeepsOthers` | backend/fastapi/database.py:142 | every record without the id survives the filter |
| `DynamicRecords.RemoveAllAppend` | backend/nodejs/database.js:124 | the filter works record by record |
| `DynamicRecords.RemoveAllShrinks` | backend/nodejs/database.js:123-125 | the list shrinks exactly when some record had the id; otherwise it is unchanged |
| `DynamicRecords.RemoveAllIdempotent` | backend/fastapi/database.py:142 | filtering twice is filtering once |
| `DynamicRecords.FindAppended` | backend/nodejs/database.js:66 | an appended record with the id is found at the end when no earlier one has it |
| `DynamicRecords.FindBeforeAppend` | backend/nodejs/database.js:89 | appending a record without the id does not change what is found |
| `DynamicRecords.RemoveAt` | backend/nestjs/src/database/in-memory.service.ts:44 | the list without that position, the rest in order |
| `DynamicRecords.RemoveFirstIsRemoveAll` | backend/nestjs/src/database/in-memory.service.ts:40-44 | when only one record has the id, the splice and the filter agree |
| `DynamicRecords.IdThenSpreadIsFound` | backend/nestjs/src/database/in-memory.service.ts:25-26 | a created record is found by its generated id when the body has no "id" |
| `DynamicRecords.IdThenSpreadOverridden` | backend/nodejs/database.js:53-54 | a body carrying a different "id" makes the created record unreachable by the generated id |
| `DynamicRecords.SpreadThenIdIsFound` | backend/fastapi/database.py:49-50 | a created record is always found by its generated id |
| `DynamicRecords.RemoveAllRemovesId` | backend/fastapi/database.py:141-143 | after the filter nothing has the id, and every other record is kept |
| `NestInMemory.NotFoundMessage` | backend/nestjs/src/database/in-memory.service.ts:19 | the exception message holds the id at a fixed place between a fixed prefix and suffix, so the id can be read back from it |
| `NestInMemory.DeleteThenNotFound` | backend/nestjs/src/database/in-memory.service.ts:39-45 | after deleting the only record with an id, the id is not found |
| `NestInMemory.DeleteKeepsOrder` | backend/nestjs/src/database/in-memory.service.ts:44 | delete removes one record, keeps the others in order, and a later duplicate stays findable |
| `NestInMemory.InMemoryService.constructor` | backend/nestjs/src/database/in-memory.service.ts:10 | the array starts empty |
| `NestInMemory.InMemoryService.FindAll` | backend/nestjs/src/database/in-memory.service.ts:12-14 | the array itself |
| `NestInMemory.InMemoryService.FindOne` | backend/nestjs/src/database/in-memory.service.ts:16-22 | the first record with the id, or NotFound with the message "Book with ID <id> not found" |
| `NestInMemory.InMemoryService.Create` | backend/nestjs/src/database/in-memory.service.ts:24-28 | pushes and returns the record with the id first and the DTO spread after it |
| `NestInMemory.InMemoryService.Update` | backend/nestjs/src/database/in-memory.service.ts:30-37 | NotFound and no change for an unknown id; otherwise the first match is overridden by the DTO in place |
| `NestInMemory.InMemoryService.Delete` | backend/nestjs/src/database/in-memory.service.ts:39-45 | NotFound and no change for an unknown id; otherwise the first match is spliced out |
| `NodeDatabase.Database.Connect` | backend/nodejs/database.js:27-30 | the in-memory array starts empty |
| `NodeDatabase.Database.CreateBook` | backend/nodejs/database.js:52-54 | pushes and returns the record with the id first and the body spread after it |
| `NodeDatabase.Database.FindAllBooks` | backend/nodejs/database.js:77-79 | the array itself |
| `NodeDatabase.Database.FindBookById` | backend/nodejs/database.js:88-90 | the first record with the id, or undefined |
| `NodeDatabase.Database.UpdateBook` | backend/nodejs/database.js:105-112 | null and no change for an unknown id; otherwise the first match is overridden by every key of the updates, "id" included |
| `NodeDatabase.Database.DeleteBook` | backend/nodejs/database.js:122-126 | filters the id out; true exactly when some record had it, which is exactly when the array shrank |
| `FastApiDatabase.UpdateKeepsId` | backend/fastapi/database.py:123-127 | an update body never holds "id", so the updated record keeps its id, stays the first match and keeps every key the update does not set |
| `FastApiDatabase.Database.ConnectToDb` | backend/fastapi/database.py:25-26 | the in-memory list starts empty |
| `FastApiDatabase.Database.CreateBook` | backend/fastapi/database.py:48-50 | appends and returns the body with the id set after it, which always carries the generated id |
| `FastApiDatabase.Database.GetAllBooks` | backend/fastapi/database.py:77-78 | the list itself |
| `FastApiDatabase.Database.GetBook` | backend/fastapi/database.py:92-96 | the loop returns the first record with the id, or None |
| `FastApiDatabase.Database.UpdateBook` | backend/fastapi/database.py:122-128 | None and no change for an unknown id; otherwise the loop replaces the first match by itself merged with the set fields |
| `FastApiDatabase.Database.DeleteBook` | backend/fastapi/database.py:140-143 | filters the id out; True exactly when some record had it, which is exactly when the list shrank; every record keeps its "id" |

## Left out

- Networking, the HTTP servers and the frameworks around the stores are not modelled: libmicrohttpd, ASP.NET, Spring, NestJS, Express and FastAPI, with their controllers, DTO validation and status mapping. Only the C backend's own router is modelled, because it is part of the C core.
- The MongoDB and Oracle branches of `database.js` and `database.py`, and the NestJS Mongo/Oracle services, are not modelled. Only the in-memory branches are.
- The UUID generators (libuuid, `uuidv4`, `uuid.uuid4`) are not modelled. The generated id is a parameter, and the C model assumes only its 36-character length. Ids are never checked for freshness in the source, so the distinct-id lemmas take freshness as a hypothesis.
- json-c's parser and serializer are not modelled. Parsing is the `parse` parameter, yielding a key/value object or none; a rendered object is its list of members. String escaping and the exact output text are not modelled. Values that are not strings are not modelled either: the field reader sees them as their text.
- The model assumes the C allocations succeed (malloc, realloc, strdup, and libmicrohttpd's response creation). Under that assumption every route yields a response text, so the 500 "Internal server error" branch of main.c:143-146 is kept in `CRouter.Finish` but never reached: `CRouter.Dispatch` and `CRouter.Serve` state that the status is never 500.
- `CRouter.AnswerToConnection` requires that a GET, DELETE or other non-body request carries no upload data. With upload data the source would write through the marker pointer `(void *)1`; that behaviour is undefined and is not modelled.
- A DELETE that removes a record answers 204 and returns early, so `*con_cls` is not reset. The model keeps that state and does not model its later reuse by libmicrohttpd.
- Concurrency is not modelled: libmicrohttpd's threads, ASP.NET's concurrent requests and the atomicity of Java's `AtomicLong`. Each operation is one atomic step.
- Reference aliasing is not modelled. The C store hands out pointers into its array; C# and Java return the stored objects and update them in place; NestJS and Node return the array itself. The model returns values, so a later in-place change through a returned reference is not captured.
- `CSharpBookService.BookService.UpdateAsync` and `JavaBookService.BookService.Update` name an `UpdateBookDto` class that is not part of this model. It is taken to hold four nullable strings, which is how the update code uses it.
- JavaScript numbers are modelled as integers only, and Python dicts as unordered maps; key order in a record is not modelled.
- `get_book` and `update_book` in `database.py` raise if a stored record lacks "id". The model proves every stored record has one and does not model the exception. Calling the database before connecting is not modelled either.
- main.c:104-111 maps every NULL from `update_book_json` to 404, so a PUT whose body does not parse answers 404 with the not-found message (`CRouter.UnparseablePutIsNotFound`). json.c:56 passes an empty field value on as NULL, so an update with an empty description or cover URL does not clear the field (`CJson.EmptyOptionalFieldDoesNotClear`).
- A POST to a full C store (1000 records) answers 400 "Title and author are required", because json.c cannot tell that failure from missing fields. `CRouter.FailedPostIsBadRequest` states this case.
- Request headers such as Content-Type are never read by the router and are not modelled.
