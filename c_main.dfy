/** The request router of the C backend (backend/c/main.c,
    answer_to_connection): the CORS preflight, the per-request body buffer
    kept in `*con_cls`, the route chain and the status mapping.

    libmicrohttpd's response objects are not modelled: a response is its
    status, its body and its header list. A body is either one of the
    literal texts the router writes itself or the structured object/array
    that json.c hands back. json_tokener_parse is the `parse` parameter;
    the UUID a create would generate is `newId`. */
module CRouter {
  import opened Common
  import opened CBook
  import opened CJson

  const StatusOk := 200
  const StatusCreated := 201
  const StatusNoContent := 204
  const StatusBadRequest := 400
  const StatusNotFound := 404
  const StatusInternalServerError := 500

  const CorsHeaders: seq<(string, string)> :=
    [("Access-Control-Allow-Origin", "*"),
     ("Access-Control-Allow-Methods", "GET, POST, PUT, DELETE"),
     ("Access-Control-Allow-Headers", "Content-Type")]

  const ContentTypeJson := ("Content-Type", "application/json")

  const JsonHeaders: seq<(string, string)> := [ContentTypeJson] + CorsHeaders

  const NoDataText := "{\"error\":\"No data provided\"}"
  const TitleAuthorRequiredText := "{\"error\":\"Title and author are required\"}"
  const RouteNotFoundText := "{\"error\":\"Route not found\"}"
  const InternalErrorText := "{\"error\":\"Internal server error\"}"

  /** The size of the stack buffer the not-found message is printed into. */
  const ErrorBufferSize: nat := 256

  const BookPath := "/book"
  const BookPrefix := "/book/"

  datatype Body = Empty | Text(text: string) | Object(obj: JsonObject) | Array(items: seq<JsonObject>)

  datatype Response = Response(status: int, body: Body, headers: seq<(string, string)>)

  /** The reply to any OPTIONS request. */
  const PreflightResponse := Response(StatusOk, Empty, CorsHeaders)

  /** The reply to a DELETE that removed a record. */
  const DeletedResponse := Response(StatusNoContent, Empty, CorsHeaders)

  /** The not-found message for `id`, formatted into the 256-byte stack
      buffer and so cut to 255 characters. */
  function NotFoundText(id: string): (r: string)
    ensures |r| < ErrorBufferSize
  {
    Truncate("{\"error\":\"Book with ID " + id + " not found\"}", ErrorBufferSize)
  }

  /** The tail of answer_to_connection: a missing response text becomes a
      500, and every response built here is sent as JSON with the CORS
      headers. */
  function Finish(text: Option<Body>, status: int): (r: Response)
    ensures r.headers == JsonHeaders
    ensures text.None? ==> r.status == StatusInternalServerError && r.body == Text(InternalErrorText)
    ensures text.Some? ==> r.status == status && r.body == text.value
  {
    match text
    case None => Response(StatusInternalServerError, Text(InternalErrorText), JsonHeaders)
    case Some(body) => Response(status, body, JsonHeaders)
  }

  datatype Route = ListBooks | GetBook(id: string) | CreateBook | UpdateBook(id: string) | DeleteBook(id: string) | NoRoute

  /** The route chain, tried in the order of the source. The item routes
      test for the prefix "/book/", and the id is the URL after it. */
  function RouteOf(httpMethod: string, url: string): (r: Route)
    ensures r.GetBook? || r.UpdateBook? || r.DeleteBook? ==> url == BookPrefix + r.id
    ensures r == ListBooks || r == CreateBook ==> url == BookPath
    ensures r != NoRoute ==> httpMethod == "GET" || httpMethod == "POST" || httpMethod == "PUT" || httpMethod == "DELETE"
  {
    if httpMethod == "GET" && url == BookPath then ListBooks
    else if httpMethod == "GET" && BookPrefix <= url then GetBook(url[|BookPrefix|..])
    else if httpMethod == "POST" && url == BookPath then CreateBook
    else if httpMethod == "PUT" && BookPrefix <= url then UpdateBook(url[|BookPrefix|..])
    else if httpMethod == "DELETE" && BookPrefix <= url then DeleteBook(url[|BookPrefix|..])
    else NoRoute
  }

  /** `GET /book`. */
  function ListResponse(s: seq<Book>): (r: Step<Response>)
    ensures r.contents == s && r.result.status == StatusOk && r.result.headers == JsonHeaders
    ensures r.result.body.Array? && |r.result.body.items| == |s|
    ensures forall i :: 0 <= i < |s| ==> r.result.body.items[i] == BookToJson(s[i])
  {
    Step(Finish(Some(Array(BooksToJson(s))), StatusOk), s)
  }

  /** `GET /book/<id>`. */
  function GetResponse(s: seq<Book>, id: string): (r: Step<Response>)
    ensures r.contents == s
    ensures r.result.status == StatusOk <==> FirstIndex(s, id).Some?
    ensures FirstIndex(s, id).Some? ==>
              r.result == Response(StatusOk, Object(BookToJson(s[FirstIndex(s, id).value])), JsonHeaders)
    ensures FirstIndex(s, id).None? ==> r.result == Response(StatusNotFound, Text(NotFoundText(id)), JsonHeaders)
  {
    var found := GetByIdJson(s, id);
    if found.None? then Step(Finish(Some(Text(NotFoundText(id))), StatusNotFound), s)
    else Step(Finish(Some(Object(found.value)), StatusOk), s)
  }

  /** `POST /book`. */
  function CreateResponse(s: seq<Book>, body: Option<string>, newId: string,
                          parse: string -> Option<JsonFields>): (r: Step<Response>)
    requires |newId| == UuidLength
    ensures body.None? ==> r == Step(Response(StatusBadRequest, Text(NoDataText), JsonHeaders), s)
    ensures r.result.status == StatusCreated <==> body.Some? && CreateJson(s, parse(body.value), newId).result.Some?
    ensures r.result.status == StatusCreated ==>
              && |r.contents| == |s| + 1 && r.contents[..|s|] == s && r.contents[|s|].id == newId
              && r.result == Response(StatusCreated, Object(BookToJson(r.contents[|s|])), JsonHeaders)
    ensures r.result.status != StatusCreated ==> r.contents == s && r.result.status == StatusBadRequest
  {
    if body.None? then Step(Finish(Some(Text(NoDataText)), StatusBadRequest), s)
    else
      var c := CreateJson(s, parse(body.value), newId);
      if c.result.None? then Step(Finish(Some(Text(TitleAuthorRequiredText)), StatusBadRequest), c.contents)
      else Step(Finish(Some(Object(c.result.value)), StatusCreated), c.contents)
  }

  /** `PUT /book/<id>`. */
  function UpdateResponse(s: seq<Book>, id: string, body: Option<string>,
                          parse: string -> Option<JsonFields>): (r: Step<Response>)
    ensures body.None? ==> r == Step(Response(StatusBadRequest, Text(NoDataText), JsonHeaders), s)
    ensures r.result.status == StatusOk <==> body.Some? && parse(body.value).Some? && FirstIndex(s, id).Some?
    ensures r.result.status == StatusOk ==>
              var i := FirstIndex(s, id).value;
              && |r.contents| == |s| && r.contents == s[i := r.contents[i]] && r.contents[i].id == id
              && r.result == Response(StatusOk, Object(BookToJson(r.contents[i])), JsonHeaders)
    ensures body.Some? && r.result.status != StatusOk ==>
              r == Step(Response(StatusNotFound, Text(NotFoundText(id)), JsonHeaders), s)
  {
    if body.None? then Step(Finish(Some(Text(NoDataText)), StatusBadRequest), s)
    else
      var u := UpdateJson(s, id, parse(body.value));
      if u.result.None? then Step(Finish(Some(Text(NotFoundText(id))), StatusNotFound), u.contents)
      else Step(Finish(Some(Object(u.result.value)), StatusOk), u.contents)
  }

  /** `DELETE /book/<id>`. */
  function DeleteResponse(s: seq<Book>, id: string): (r: Step<Response>)
    ensures r.result == DeletedResponse <==> FirstIndex(s, id).Some?
    ensures FirstIndex(s, id).Some? ==>
              var i := FirstIndex(s, id).value;
              r.contents == s[..i] + s[i + 1..] && |r.contents| == |s| - 1
    ensures FirstIndex(s, id).None? ==> r == Step(Response(StatusNotFound, Text(NotFoundText(id)), JsonHeaders), s)
  {
    var d := Delete(s, id);
    if d.result != 0 then Step(DeletedResponse, d.contents)
    else Step(Finish(Some(Text(NotFoundText(id))), StatusNotFound), d.contents)
  }

  /** The routing part of answer_to_connection, once the body is complete,
      on a store holding `s`. `body` is the text handed to the parser, None
      when no upload data arrived. */
  function Dispatch(s: seq<Book>, httpMethod: string, url: string, body: Option<string>,
                    newId: string, parse: string -> Option<JsonFields>): (r: Step<Response>)
    requires |newId| == UuidLength
    ensures !(RouteOf(httpMethod, url).CreateBook? || RouteOf(httpMethod, url).UpdateBook? || RouteOf(httpMethod, url).DeleteBook?)
            ==> r.contents == s
    ensures r.result == DeletedResponse || r.result.headers == JsonHeaders
    ensures r.result.status in {StatusOk, StatusCreated, StatusNoContent, StatusBadRequest, StatusNotFound}
    ensures RouteOf(httpMethod, url) == NoRoute ==> r.result == Response(StatusNotFound, Text(RouteNotFoundText), JsonHeaders)
  {
    match RouteOf(httpMethod, url)
    case ListBooks => ListResponse(s)
    case GetBook(id) => GetResponse(s, id)
    case CreateBook => CreateResponse(s, body, newId, parse)
    case UpdateBook(id) => UpdateResponse(s, id, body, parse)
    case DeleteBook(id) => DeleteResponse(s, id)
    case NoRoute => Step(Finish(Some(Text(RouteNotFoundText)), StatusNotFound), s)
  }

  /** A whole request: the preflight short-circuit, then the route chain. */
  function Serve(s: seq<Book>, httpMethod: string, url: string, body: Option<string>,
                 newId: string, parse: string -> Option<JsonFields>): (r: Step<Response>)
    requires |newId| == UuidLength
    ensures httpMethod == "OPTIONS" ==> r == Step(PreflightResponse, s)
    ensures r.contents != s ==> httpMethod == "POST" || httpMethod == "PUT" || httpMethod == "DELETE"
    ensures r.result.status in {StatusOk, StatusCreated, StatusNoContent, StatusBadRequest, StatusNotFound}
  {
    if httpMethod == "OPTIONS" then Step(PreflightResponse, s)
    else Dispatch(s, httpMethod, url, body, newId, parse)
  }

  // ---------------------------------------------------------------------
  // The body buffer.

  /** `struct connection_info`: `data` is the malloc'd buffer, terminator
      included, or NULL. */
  datatype ConnectionInfo = ConnectionInfo(data: Option<string>, size: nat)

  /** What `*con_cls` points to: nothing yet, the marker `(void *)1`, or a
      connection_info. */
  datatype ConCls = Unset | Initialized | Info(info: ConnectionInfo)

  /** MHD_YES without a response, or a queued response. */
  datatype Answer = Continue | Queued(response: Response)

  predicate IsBodyMethod(httpMethod: string)
  {
    httpMethod == "POST" || httpMethod == "PUT"
  }

  /** The chunks in arrival order, joined. */
  function Concat(chunks: seq<string>): string
  {
    if chunks == [] then "" else Concat(chunks[..|chunks| - 1]) + chunks[|chunks| - 1]
  }

  function TotalSize(chunks: seq<string>): nat
  {
    if chunks == [] then 0 else TotalSize(chunks[..|chunks| - 1]) + |chunks[|chunks| - 1]|
  }

  /** A buffer holding `chunks`: NULL before the first chunk, afterwards the
      chunks joined, `size` long and NUL-terminated. */
  predicate Holds(ci: ConnectionInfo, chunks: seq<string>)
  {
    match ci.data
    case None => ci.size == 0 && chunks == []
    case Some(buf) => chunks != [] && |buf| == ci.size + 1 && buf[ci.size] == '\0' && buf[..ci.size] == Concat(chunks)
  }

  /** One upload step: malloc and copy for the first chunk, realloc and
      append after the old contents otherwise. */
  function AppendChunk(ci: ConnectionInfo, chunk: string): (r: ConnectionInfo)
    requires ci.data.Some? ==> ci.size < |ci.data.value|
    ensures r.size == (if ci.data.None? then 0 else ci.size) + |chunk| && r.data.Some?
    ensures |r.data.value| == r.size + 1 && r.data.value[r.size] == '\0'
    ensures ci.data.None? ==> r.data.value[..r.size] == chunk
    ensures ci.data.Some? ==> r.data.value[..r.size] == ci.data.value[..ci.size] + chunk
  {
    match ci.data
    case None =>
      assert (chunk + "\0")[..|chunk|] == chunk;
      ConnectionInfo(Some(chunk + "\0"), |chunk|)
    case Some(buf) => ConnectionInfo(Some(buf[..ci.size] + chunk + "\0"), ci.size + |chunk|)
  }

  /** The text json_tokener_parse is given: the buffer read as a C string. */
  function BodyText(cls: ConCls): Option<string>
  {
    if cls.Info? && cls.info.data.Some? then Some(CStr(cls.info.data.value)) else None
  }

  /** Which part of answer_to_connection a call runs. */
  datatype Phase = Preflight | Begin | Accumulate | Respond

  function PhaseOf(cls: ConCls, httpMethod: string, upload: string): (p: Phase)
    ensures p == Preflight <==> httpMethod == "OPTIONS"
    ensures p == Begin <==> httpMethod != "OPTIONS" && cls.Unset? && IsBodyMethod(httpMethod)
    ensures p == Respond ==> upload == "" && !(cls.Unset? && IsBodyMethod(httpMethod))
  {
    if httpMethod == "OPTIONS" then Preflight
    else if cls.Unset? && IsBodyMethod(httpMethod) then Begin
    else if upload != "" then Accumulate
    else Respond
  }

  /** `*con_cls` after a response: a connection_info is freed and reset to
      NULL, except on the DELETE path, which returns before that cleanup;
      NULL has become the marker. */
  function AfterResponse(cls: ConCls, deleted: bool): (r: ConCls)
    ensures r.Unset? <==> cls.Info? && !deleted
    ensures r.Info? ==> r == cls
    ensures cls.Unset? ==> r == Initialized
  {
    if cls.Info? && !deleted then Unset
    else if cls.Unset? then Initialized
    else cls
  }

  lemma {:induction false} ConcatAppend(chunks: seq<string>, chunk: string)
    ensures Concat(chunks + [chunk]) == Concat(chunks) + chunk
    ensures TotalSize(chunks + [chunk]) == TotalSize(chunks) + |chunk|
  {
    assert (chunks + [chunk])[..|chunks|] == chunks;
  }

  /** The joined chunks are as long as the chunks together. */
  lemma {:induction false} ConcatLength(chunks: seq<string>)
    ensures |Concat(chunks)| == TotalSize(chunks)
    decreases |chunks|
  {
    if chunks != [] {
      ConcatLength(chunks[..|chunks| - 1]);
    }
  }

  /** Appending a non-empty chunk keeps the buffer holding the chunks, now
      with the new one last, and grows its size by the chunk's length. */
  lemma {:induction false} AppendChunkHolds(ci: ConnectionInfo, chunks: seq<string>, chunk: string)
    requires Holds(ci, chunks) && chunk != ""
    ensures Holds(AppendChunk(ci, chunk), chunks + [chunk])
    ensures AppendChunk(ci, chunk).size == ci.size + |chunk|
  {
    ConcatAppend(chunks, chunk);
    if ci.data.None? {
      assert Concat(chunks + [chunk]) == chunk by {
        assert Concat(chunks) == "";
      }
      assert (chunk + "\0")[..|chunk|] == chunk;
    } else {
      var buf := ci.data.value;
      var nb := buf[..ci.size] + chunk + "\0";
      assert nb[..ci.size + |chunk|] == buf[..ci.size] + chunk;
    }
  }

  /** The buffer's size is the sum of the chunk lengths. */
  lemma BufferSizeIsSum(ci: ConnectionInfo, chunks: seq<string>)
    requires Holds(ci, chunks)
    ensures ci.size == TotalSize(chunks)
  {
    ConcatLength(chunks);
  }

  /** The terminator does not change what a C string reads as. */
  lemma {:induction false} CStrTerminated(s: string)
    ensures CStr(s + "\0") == CStr(s)
  {
    if s != [] && s[0] != '\0' {
      assert (s + "\0")[1..] == s[1..] + "\0";
      CStrTerminated(s[1..]);
    }
  }

  /** The parser sees the joined chunks, read as a C string. */
  lemma BodyTextOfHolds(ci: ConnectionInfo, chunks: seq<string>)
    requires Holds(ci, chunks)
    ensures BodyText(Info(ci)) == if chunks == [] then None else Some(CStr(Concat(chunks)))
  {
    if ci.data.Some? {
      var buf := ci.data.value;
      assert buf == Concat(chunks) + "\0";
      CStrTerminated(Concat(chunks));
    }
  }

  /** The body a sequence of chunks produces. */
  function BodyOfChunks(chunks: seq<string>): Option<string>
  {
    if chunks == [] then None else Some(CStr(Concat(chunks)))
  }

  /** The state kept for one request between the calls of the daemon. */
  class Connection {
    var cls: ConCls
    /** The upload chunks received so far, in order. */
    ghost var chunks: seq<string>

    ghost predicate Valid()
      reads this
    {
      cls.Info? ==> Holds(cls.info, chunks)
    }

    constructor ()
      ensures Valid() && cls == Unset && chunks == []
    {
      cls := Unset;
      chunks := [];
    }
  }

  /** The route chain of answer_to_connection once the body is complete.
      `deleted` is set on the DELETE path that returns before the cleanup. */
  method RouteRequest(store: BookStore, httpMethod: string, url: string, body: Option<string>,
                      newId: string, parse: string -> Option<JsonFields>)
    returns (a: Answer, deleted: bool)
    requires store.Valid() && |newId| == UuidLength
    modifies store, store.books
    ensures store.Valid()
    ensures var step := Dispatch(old(store.Contents()), httpMethod, url, body, newId, parse);
            a == Queued(step.result) && store.Contents() == step.contents
    ensures deleted <==> RouteOf(httpMethod, url).DeleteBook? && a.response == DeletedResponse
  {
    var response: Response;
    deleted := false;
    match RouteOf(httpMethod, url) {
      case ListBooks =>
        var items := GetAllBooksJson(store);
        response := Finish(Some(Array(items)), StatusOk);
      case GetBook(id) =>
        response := RespondGet(store, id);
      case CreateBook =>
        response := RespondCreate(store, body, newId, parse);
      case UpdateBook(id) =>
        response := RespondUpdate(store, id, body, parse);
      case DeleteBook(id) =>
        response := RespondDelete(store, id);
        deleted := response == DeletedResponse;
      case NoRoute =>
        response := Finish(Some(Text(RouteNotFoundText)), StatusNotFound);
    }
    a := Queued(response);
  }

  /** The `GET /book/<id>` branch. */
  method RespondGet(store: BookStore, id: string) returns (response: Response)
    requires store.Valid()
    ensures response == GetResponse(store.Contents(), id).result
  {
    var found := GetBookByIdJson(store, id);
    if found.None? {
      response := Finish(Some(Text(NotFoundText(id))), StatusNotFound);
    } else {
      response := Finish(Some(Object(found.value)), StatusOk);
    }
  }

  /** The `POST /book` branch. */
  method RespondCreate(store: BookStore, body: Option<string>, newId: string,
                       parse: string -> Option<JsonFields>) returns (response: Response)
    requires store.Valid() && |newId| == UuidLength
    modifies store, store.books
    ensures store.Valid()
    ensures var step := CreateResponse(old(store.Contents()), body, newId, parse);
            response == step.result && store.Contents() == step.contents
  {
    if body.None? {
      return Finish(Some(Text(NoDataText)), StatusBadRequest);
    }
    var created := CreateBookJson(store, parse(body.value), newId);
    if created.None? {
      response := Finish(Some(Text(TitleAuthorRequiredText)), StatusBadRequest);
    } else {
      response := Finish(Some(Object(created.value)), StatusCreated);
    }
  }

  /** The `PUT /book/<id>` branch. */
  method RespondUpdate(store: BookStore, id: string, body: Option<string>,
                       parse: string -> Option<JsonFields>) returns (response: Response)
    requires store.Valid()
    modifies store.books
    ensures store.Valid()
    ensures var step := UpdateResponse(old(store.Contents()), id, body, parse);
            response == step.result && store.Contents() == step.contents
  {
    if body.None? {
      return Finish(Some(Text(NoDataText)), StatusBadRequest);
    }
    var updated := UpdateBookJson(store, id, parse(body.value));
    if updated.None? {
      response := Finish(Some(Text(NotFoundText(id))), StatusNotFound);
    } else {
      response := Finish(Some(Object(updated.value)), StatusOk);
    }
  }

  /** The `DELETE /book/<id>` branch. */
  method RespondDelete(store: BookStore, id: string) returns (response: Response)
    requires store.Valid()
    modifies store, store.books
    ensures store.Valid()
    ensures var step := DeleteResponse(old(store.Contents()), id);
            response == step.result && store.Contents() == step.contents
  {
    var count := store.DeleteBookById(id);
    if count != 0 {
      response := DeletedResponse;
    } else {
      response := Finish(Some(Text(NotFoundText(id))), StatusNotFound);
    }
  }

  /** answer_to_connection. GET and DELETE requests never carry upload
      data here: the source would dereference the marker `(void *)1`. */
  method AnswerToConnection(store: BookStore, con: Connection, url: string, httpMethod: string,
                            upload: string, newId: string, parse: string -> Option<JsonFields>)
    returns (a: Answer)
    requires store.Valid() && con.Valid() && |newId| == UuidLength
    requires PhaseOf(con.cls, httpMethod, upload) == Accumulate ==> con.cls.Info?
    modifies store, store.books, con
    ensures store.Valid() && con.Valid()
    ensures PhaseOf(old(con.cls), httpMethod, upload) != Respond ==>
              store.bookCount == old(store.bookCount) && store.books[..] == old(store.books[..])
    ensures PhaseOf(old(con.cls), httpMethod, upload) == Preflight ==>
              a == Queued(PreflightResponse) && con.cls == old(con.cls) && con.chunks == old(con.chunks)
    ensures PhaseOf(old(con.cls), httpMethod, upload) == Begin ==>
              a == Continue && con.cls == Info(ConnectionInfo(None, 0)) && con.chunks == []
    ensures PhaseOf(old(con.cls), httpMethod, upload) == Accumulate ==>
              && a == Continue
              && con.cls == Info(AppendChunk(old(con.cls).info, upload))
              && con.chunks == old(con.chunks) + [upload]
    ensures PhaseOf(old(con.cls), httpMethod, upload) == Respond ==>
              var step := Dispatch(old(store.Contents()), httpMethod, url, BodyText(old(con.cls)), newId, parse);
              var deleted := RouteOf(httpMethod, url).DeleteBook? && step.result == DeletedResponse;
              && a == Queued(step.result)
              && store.Contents() == step.contents
              && con.cls == AfterResponse(old(con.cls), deleted)
              && (con.cls.Unset? ==> con.chunks == []) && (!con.cls.Unset? ==> con.chunks == old(con.chunks))
  {
    if httpMethod == "OPTIONS" {
      return Queued(PreflightResponse);
    }

    if con.cls.Unset? {
      if IsBodyMethod(httpMethod) {
        con.cls := Info(ConnectionInfo(None, 0));
        con.chunks := [];
        return Continue;
      }
      con.cls := Initialized;
    }

    if |upload| != 0 {
      var info := con.cls.info;
      AppendChunkHolds(info, con.chunks, upload);
      con.cls := Info(AppendChunk(info, upload));
      con.chunks := con.chunks + [upload];
      return Continue;
    }

    var deleted;
    a, deleted := RouteRequest(store, httpMethod, url, BodyText(con.cls), newId, parse);
    if con.cls.Info? && !deleted {
      con.cls := Unset;
      con.chunks := [];
    }
  }

  /** One request as libmicrohttpd delivers it: a first call, one call per
      upload chunk, and a last call with no data. The response and the
      store's new contents are those of `Serve` on the joined chunks. */
  method ServeRequest(store: BookStore, url: string, httpMethod: string, chunks: seq<string>,
                      newId: string, parse: string -> Option<JsonFields>)
    returns (response: Response)
    requires store.Valid() && |newId| == UuidLength
    requires chunks != [] ==> IsBodyMethod(httpMethod)
    requires forall i :: 0 <= i < |chunks| ==> chunks[i] != ""
    modifies store, store.books
    ensures store.Valid()
    ensures var step := Serve(old(store.Contents()), httpMethod, url, BodyOfChunks(chunks), newId, parse);
            response == step.result && store.Contents() == step.contents
  {
    var con := new Connection();
    var a := AnswerToConnection(store, con, url, httpMethod, "", newId, parse);
    if a.Continue? {
      assert IsBodyMethod(httpMethod) && con.cls == Info(ConnectionInfo(None, 0));
      for i := 0 to |chunks|
        invariant store.Valid() && con.Valid() && con.cls.Info?
        invariant store.Contents() == old(store.Contents())
        invariant con.chunks == chunks[..i]
      {
        a := AnswerToConnection(store, con, url, httpMethod, chunks[i], newId, parse);
      }
      assert chunks[..|chunks|] == chunks;
      BodyTextOfHolds(con.cls.info, con.chunks);
      a := AnswerToConnection(store, con, url, httpMethod, "", newId, parse);
    }
    response := a.response;
  }

  // ---------------------------------------------------------------------
  // Properties of the router.

  /** The route chain, one case at a time, both directions. */
  lemma RouteTable(httpMethod: string, url: string)
    ensures RouteOf(httpMethod, url) == ListBooks <==> httpMethod == "GET" && url == BookPath
    ensures RouteOf(httpMethod, url).GetBook? <==> httpMethod == "GET" && BookPrefix <= url
    ensures RouteOf(httpMethod, url) == CreateBook <==> httpMethod == "POST" && url == BookPath
    ensures RouteOf(httpMethod, url).UpdateBook? <==> httpMethod == "PUT" && BookPrefix <= url
    ensures RouteOf(httpMethod, url).DeleteBook? <==> httpMethod == "DELETE" && BookPrefix <= url
    ensures (RouteOf(httpMethod, url).GetBook? || RouteOf(httpMethod, url).UpdateBook? || RouteOf(httpMethod, url).DeleteBook?)
            ==> RouteOf(httpMethod, url).id == url[|BookPrefix|..]
  {
  }

  /** The id of a `/book/<id>` URL is exactly `<id>`. */
  lemma {:induction false} IdOfBookUrl(httpMethod: string, id: string)
    ensures httpMethod == "GET" ==> RouteOf(httpMethod, BookPrefix + id) == GetBook(id)
    ensures httpMethod == "PUT" ==> RouteOf(httpMethod, BookPrefix + id) == UpdateBook(id)
    ensures httpMethod == "DELETE" ==> RouteOf(httpMethod, BookPrefix + id) == DeleteBook(id)
  {
    assert BookPrefix <= BookPrefix + id;
    assert (BookPrefix + id)[|BookPrefix|..] == id;
  }

  /** Every response carries the three CORS headers, and it carries the
      JSON content type exactly when it has a body. */
  lemma {:induction false} HeadersOfEveryResponse(s: seq<Book>, httpMethod: string, url: string, body: Option<string>,
                                                  newId: string, parse: string -> Option<JsonFields>)
    requires |newId| == UuidLength
    ensures var r := Serve(s, httpMethod, url, body, newId, parse).result;
            && (forall h :: h in CorsHeaders ==> h in r.headers)
            && (ContentTypeJson in r.headers <==> r.body != Empty)
  {
    var r := Serve(s, httpMethod, url, body, newId, parse).result;
    assert ContentTypeJson !in CorsHeaders;
    if r.body == Empty {
      assert r == PreflightResponse || r == DeletedResponse;
    } else {
      assert r.headers == JsonHeaders;
    }
  }

  /** OPTIONS answers 200 with no body and the CORS headers, whatever the
      URL, and leaves the store alone. */
  lemma OptionsShortCircuits(s: seq<Book>, url: string, body: Option<string>, newId: string, parse: string -> Option<JsonFields>)
    requires |newId| == UuidLength
    ensures Serve(s, "OPTIONS", url, body, newId, parse) == Step(Response(StatusOk, Empty, CorsHeaders), s)
  {
  }

  /** A PUT whose body does not parse answers 404 with the not-found
      message, not 400, and changes nothing. */
  lemma {:induction false} UnparseablePutIsNotFound(s: seq<Book>, id: string, text: string, newId: string,
                                                    parse: string -> Option<JsonFields>)
    requires |newId| == UuidLength && parse(text) == None
    ensures Serve(s, "PUT", BookPrefix + id, Some(text), newId, parse)
            == Step(Response(StatusNotFound, Text(NotFoundText(id)), JsonHeaders), s)
  {
    IdOfBookUrl("PUT", id);
  }

  /** A POST whose body does not parse, or that reaches a full store,
      answers 400 "Title and author are required" and changes nothing. */
  lemma {:induction false} FailedPostIsBadRequest(s: seq<Book>, text: string, newId: string,
                                                  parse: string -> Option<JsonFields>)
    requires |newId| == UuidLength && (parse(text) == None || |s| >= MaxBooks)
    ensures Serve(s, "POST", BookPath, Some(text), newId, parse)
            == Step(Response(StatusBadRequest, Text(TitleAuthorRequiredText), JsonHeaders), s)
  {
  }

  /** POST and PUT without upload data answer 400 "No data provided". */
  lemma NoBodyIsBadRequest(s: seq<Book>, id: string, newId: string, parse: string -> Option<JsonFields>)
    requires |newId| == UuidLength
    ensures Serve(s, "POST", BookPath, None, newId, parse)
            == Step(Response(StatusBadRequest, Text(NoDataText), JsonHeaders), s)
    ensures Serve(s, "PUT", BookPrefix + id, None, newId, parse)
            == Step(Response(StatusBadRequest, Text(NoDataText), JsonHeaders), s)
  {
    IdOfBookUrl("PUT", id);
  }

  lemma DuneFields()
    ensures ExtractFields(map["title" := "Dune", "author" := "Herbert"]) == Fields(Some("Dune"), Some("Herbert"), None, None)
  {
    var m := map["title" := "Dune", "author" := "Herbert"];
    ReadBack(m, "title", "Dune");
    ReadBack(m, "author", "Herbert");
    assert "description" !in m && "coverImageUrl" !in m;
  }

  /** `POST /book {"title":"Dune","author":"Herbert"}` answers 201 with the
      new id and empty description and cover URL. */
  lemma {:induction false} CreateDune(s: seq<Book>, text: string, newId: string, parse: string -> Option<JsonFields>)
    requires |newId| == UuidLength && |s| < MaxBooks
    requires parse(text) == Some(map["title" := "Dune", "author" := "Herbert"])
    ensures var b := Book(newId, "Dune", "Herbert", "", "");
            Serve(s, "POST", BookPath, Some(text), newId, parse)
            == Step(Response(StatusCreated, Object(BookToJson(b)), JsonHeaders), s + [b])
  {
    var m := map["title" := "Dune", "author" := "Herbert"];
    var b := Book(newId, "Dune", "Herbert", "", "");
    DuneFields();
    var f := ExtractFields(m);
    var c := Create(s, f.title, f.author, f.description, f.coverImageUrl, newId);
    assert c.result == Some(b);
    assert CreateJson(s, Some(m), newId) == Step(Some(BookToJson(b)), s + [b]);
    assert RouteOf("POST", BookPath) == CreateBook;
  }

  /** A created record is found by a GET of its fresh id, with the object
      the POST returned. */
  lemma {:induction false} PostThenGet(s: seq<Book>, text: string, newId: string, otherId: string,
                                       parse: string -> Option<JsonFields>)
    requires |newId| == UuidLength && |otherId| == UuidLength && FirstIndex(s, newId).None?
    requires Serve(s, "POST", BookPath, Some(text), newId, parse).result.status == StatusCreated
    ensures var post := Serve(s, "POST", BookPath, Some(text), newId, parse);
            var get := Serve(post.contents, "GET", BookPrefix + newId, None, otherId, parse);
            get == Step(Response(StatusOk, post.result.body, JsonHeaders), post.contents)
  {
    var f := ExtractFields(parse(text).value);
    var c := Create(s, f.title, f.author, f.description, f.coverImageUrl, newId);
    assert c.result.Some?;
    CreateThenGet(s, f.title, f.author, f.description, f.coverImageUrl, newId);
    IdOfBookUrl("GET", newId);
  }

  /** With distinct ids, deleting a stored id twice answers 204 and then 404. */
  lemma {:induction false} DeleteTwiceResponses(s: seq<Book>, id: string, newId: string, parse: string -> Option<JsonFields>)
    requires |newId| == UuidLength && DistinctIds(s) && FirstIndex(s, id).Some?
    ensures var first := Serve(s, "DELETE", BookPrefix + id, None, newId, parse);
            var second := Serve(first.contents, "DELETE", BookPrefix + id, None, newId, parse);
            && first.result == Response(StatusNoContent, Empty, CorsHeaders)
            && second.result == Response(StatusNotFound, Text(NotFoundText(id)), JsonHeaders)
            && second.contents == first.contents
  {
    IdOfBookUrl("DELETE", id);
    DeleteTwice(s, id);
  }

  /** `GET /book/<id>` for an unknown id answers 404 with the message; the
      message is complete for ids up to 220 characters and cut to 255
      characters, losing its closing `"}`, beyond. */
  lemma {:induction false} GetUnknownId(s: seq<Book>, id: string, newId: string, parse: string -> Option<JsonFields>)
    requires |newId| == UuidLength && FirstIndex(s, id).None?
    ensures Serve(s, "GET", BookPrefix + id, None, newId, parse)
            == Step(Response(StatusNotFound, Text(NotFoundText(id)), JsonHeaders), s)
    ensures |id| <= 220 ==> NotFoundText(id) == "{\"error\":\"Book with ID " + id + " not found\"}"
    ensures |id| > 220 ==> |NotFoundText(id)| == ErrorBufferSize - 1
  {
    IdOfBookUrl("GET", id);
  }

  /** A PUT to an id the store does not hold answers 404 with the
      not-found message and changes nothing, whatever the body parses to. */
  lemma {:induction false} PutUnknownIdIsNotFound(s: seq<Book>, id: string, text: string, newId: string,
                                                  parse: string -> Option<JsonFields>)
    requires |newId| == UuidLength && FirstIndex(s, id).None?
    ensures Serve(s, "PUT", BookPrefix + id, Some(text), newId, parse)
            == Step(Response(StatusNotFound, Text(NotFoundText(id)), JsonHeaders), s)
  {
    IdOfBookUrl("PUT", id);
  }

  /** A PUT to a stored id whose body parses answers 200 with the record
      as updated, and only the first record with that id changes. */
  lemma {:induction false} PutKnownIdIsOk(s: seq<Book>, id: string, text: string, newId: string,
                                          parse: string -> Option<JsonFields>)
    requires |newId| == UuidLength && parse(text).Some? && FirstIndex(s, id).Some?
    ensures var f := ExtractFields(parse(text).value);
            var i := FirstIndex(s, id).value;
            var b := ApplyUpdate(s[i], f.title, f.author, f.description, f.coverImageUrl);
            Serve(s, "PUT", BookPrefix + id, Some(text), newId, parse)
            == Step(Response(StatusOk, Object(BookToJson(b)), JsonHeaders), s[i := b])
  {
    IdOfBookUrl("PUT", id);
  }

  /** A POST body that parses but lacks a non-empty title or author
      answers 400 "Title and author are required" and changes nothing. */
  lemma {:induction false} PostWithoutTitleOrAuthorIsBadRequest(s: seq<Book>, text: string, obj: JsonFields, newId: string,
                                                                parse: string -> Option<JsonFields>)
    requires |newId| == UuidLength && parse(text) == Some(obj)
    requires "title" !in obj || CStr(obj["title"]) == "" || "author" !in obj || CStr(obj["author"]) == ""
    ensures Serve(s, "POST", BookPath, Some(text), newId, parse)
            == Step(Response(StatusBadRequest, Text(TitleAuthorRequiredText), JsonHeaders), s)
  {
    CreateNeedsTitleAndAuthor(s, obj, newId);
  }

  /** A POST with a non-empty title and author, on a store with room,
      answers 201 with the new record, which is appended after the others. */
  lemma {:induction false} SuccessfulPostIsCreated(s: seq<Book>, text: string, obj: JsonFields, newId: string,
                                                   parse: string -> Option<JsonFields>)
    requires |newId| == UuidLength && |s| < MaxBooks && parse(text) == Some(obj)
    requires "title" in obj && CStr(obj["title"]) != "" && "author" in obj && CStr(obj["author"]) != ""
    ensures var f := ExtractFields(obj);
            var b := NewBook(newId, CStr(obj["title"]), CStr(obj["author"]), f.description, f.coverImageUrl);
            Serve(s, "POST", BookPath, Some(text), newId, parse)
            == Step(Response(StatusCreated, Object(BookToJson(b)), JsonHeaders), s + [b])
  {
    var f := ExtractFields(obj);
    assert f.title == Some(CStr(obj["title"])) && f.author == Some(CStr(obj["author"]));
  }

  /** Outside the route table (an unknown method, or a URL that is neither
      `/book` nor under `/book/`), every request but OPTIONS answers 404
      "Route not found" and changes nothing. */
  lemma {:induction false} UnmatchedRouteIsNotFound(s: seq<Book>, httpMethod: string, url: string, body: Option<string>,
                                                    newId: string, parse: string -> Option<JsonFields>)
    requires |newId| == UuidLength && httpMethod != "OPTIONS"
    requires !(httpMethod == "GET" || httpMethod == "POST" || httpMethod == "PUT" || httpMethod == "DELETE")
             || (url != BookPath && !(BookPrefix <= url))
    ensures Serve(s, httpMethod, url, body, newId, parse)
            == Step(Response(StatusNotFound, Text(RouteNotFoundText), JsonHeaders), s)
  {
    RouteTable(httpMethod, url);
  }
}
