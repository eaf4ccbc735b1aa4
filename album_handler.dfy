/**
 * `handleAlbum`: the decision tree that maps an `/albums` request (requestMethod,
 * remaining path segments, the `s` query parameter) and the store's answer
 * to an HTTP status code and a JSON body.
 */
module AlbumHandler {
  import opened Wrappers
  import opened PhpNumbers
  import opened AlbumModel

  /** The status codes the handler uses (the names of the HTTP status constants). */
  const Ok: int := 200
  const BadRequest: int := 400
  const NotFound: int := 404
  const MethodNotAllowed: int := 405
  const InternalServerError: int := 500

  /** A JSON body: `{"error": message}`, a list of rows or a single row. */
  datatype Body = Error(message: string) | RowList(rows: seq<Row>) | Single(row: Row)

  datatype Response = Response(status: int, body: Body)

  /** The failed-search message quotes the title as given. */
  function SearchNotFoundMessage(title: string): (m: string)
    ensures |m| == |title| + 30 && m[18..|m| - 12] == title
  {
    "Album with title '" + title + "' not found."
  }

  /** The not-found message quotes the id as a numeral whose value is that id. */
  function AlbumNotFoundMessage(albumId: int): (m: string)
    ensures |m| > 25 && IsNumeric(m[14..|m| - 11]) && NumeralValue(m[14..|m| - 11]) == albumId
  {
    var m := "Album with ID " + IntToString(albumId) + " not found.";
    assert m[14..|m| - 11] == IntToString(albumId);
    m
  }

  /** The no-tracks message quotes the id as a numeral whose value is that id. */
  function NoTracksMessage(albumId: int): (m: string)
    ensures |m| > 30 && IsNumeric(m[29..|m| - 1]) && NumeralValue(m[29..|m| - 1]) == albumId
  {
    var m := "No tracks found for album ID " + IntToString(albumId) + ".";
    assert m[29..|m| - 1] == IntToString(albumId);
    m
  }

  const ListFailedMessage: string := "Failed to retrieve albums."
  const InvalidPathMessage: string := "Invalid request path."
  const MethodNotAllowedMessage: string := "Method not allowed."

  /**
   * `/albums/{id}`: exactly one segment, and it is numeric. Its last segment
   * is numeric, which a track listing's never is, so the order of the
   * handler's tests does not matter for it.
   */
  predicate ItemPath(parts: seq<string>)
    ensures ItemPath(parts) ==> parts != [] && IsNumeric(parts[|parts| - 1])
  {
    |parts| == 1 && IsNumeric(parts[0])
  }

  /**
   * `/albums/{id}/tracks`: exactly two segments, a numeric one and then
   * `tracks`. Its last segment is not numeric, so it is never an item path.
   */
  predicate TracksPath(parts: seq<string>)
    ensures TracksPath(parts) ==> parts != [] && !IsNumeric(parts[|parts| - 1])
  {
    |parts| == 2 && IsNumeric(parts[0]) && parts[1] == "tracks"
  }

  /** No path is both a single album's and a track listing's. */
  lemma PathShapesDisjoint(parts: seq<string>)
    ensures !(ItemPath(parts) && TracksPath(parts))
  {
  }

  /**
   * The one store query a request leads to, if any. Only GET requests reach
   * the store, and the ids it is asked about are PHP integers.
   */
  function StoreCallOf(requestMethod: string, parts: seq<string>, s: Option<string>): (c: Option<StoreCall>)
    ensures c.Some? ==> requestMethod == "GET"
    ensures c.Some? && c.value.Get? ==> InPhpIntRange(c.value.id)
    ensures c.Some? && c.value.GetTracksByAlbumId? ==> InPhpIntRange(c.value.albumId)
  {
    if requestMethod != "GET" then None
    else if s.Some? then Some(Search(s.value))
    else if parts == [] then Some(GetAll)
    else if ItemPath(parts) then Some(Get(ToInt(parts[0])))
    else if TracksPath(parts) then Some(GetTracksByAlbumId(ToInt(parts[0])))
    else None
  }

  /** Whether an answer leads to a 200: any list, except that a track list must be non-empty. */
  predicate Succeeded(call: StoreCall, answer: Answer) {
    match answer
    case ListAnswer(Rows(rows)) => !call.GetTracksByAlbumId? || rows != []
    case ItemAnswer(Found(_)) => true
    case _ => false
  }

  /** The body of a successful answer: the rows or the row, as the store gave them. */
  function SuccessBody(answer: Answer): Body
    requires answer.ListAnswer? ==> answer.list.Rows?
    requires answer.ItemAnswer? ==> answer.item.Found?
  {
    match answer
    case ListAnswer(list) => RowList(list.rows)
    case ItemAnswer(item) => Single(item.row)
  }

  /**
   * The handler. It answers with one of five statuses, refuses exactly the
   * methods other than GET with a 405, and every non-200 body is an error
   * object. The lemmas after it say which query leads to which status.
   */
  function HandleAlbum(requestMethod: string, parts: seq<string>, s: Option<string>, store: AlbumStore): (r: Response)
    ensures r.status in {Ok, BadRequest, NotFound, MethodNotAllowed, InternalServerError}
    ensures r.status == MethodNotAllowed <==> requestMethod != "GET"
    ensures r.status != Ok <==> r.body.Error?
  {
    if requestMethod == "GET" then
      if s.Some? then
        var albums := store.search(s.value);
        if albums.RowsFail? then Response(NotFound, Error(SearchNotFoundMessage(s.value)))
        else Response(Ok, RowList(albums.rows))
      else if parts == [] then
        var albums := store.getAll;
        if albums.RowsFail? then Response(InternalServerError, Error(ListFailedMessage))
        else if albums.rows == [] then Response(Ok, RowList([]))
        else Response(Ok, RowList(albums.rows))
      else if ItemPath(parts) then
        var albumId := ToInt(parts[0]);
        var album := store.get(albumId);
        if album.RowFail? then Response(NotFound, Error(AlbumNotFoundMessage(albumId)))
        else Response(Ok, Single(album.row))
      else if TracksPath(parts) then
        var albumId := ToInt(parts[0]);
        var tracks := store.getTracksByAlbumId(albumId);
        if tracks.RowsFail? || tracks.rows == [] then Response(NotFound, Error(NoTracksMessage(albumId)))
        else Response(Ok, RowList(tracks.rows))
      else Response(BadRequest, Error(InvalidPathMessage))
    else Response(MethodNotAllowed, Error(MethodNotAllowedMessage))
  }

  /** 400 exactly for a GET whose path shape asks the store nothing. */
  lemma BadRequestExactly(requestMethod: string, parts: seq<string>, s: Option<string>, store: AlbumStore)
    ensures HandleAlbum(requestMethod, parts, s, store).status == BadRequest <==>
      requestMethod == "GET" && StoreCallOf(requestMethod, parts, s).None?
  {
  }

  /** 500 exactly when listing the collection fails. */
  lemma InternalErrorExactly(requestMethod: string, parts: seq<string>, s: Option<string>, store: AlbumStore)
    ensures HandleAlbum(requestMethod, parts, s, store).status == InternalServerError <==>
      StoreCallOf(requestMethod, parts, s) == Some(GetAll) && store.getAll.RowsFail?
  {
  }

  /** 200 exactly when the query made succeeds. */
  lemma OkExactly(requestMethod: string, parts: seq<string>, s: Option<string>, store: AlbumStore)
    ensures var c := StoreCallOf(requestMethod, parts, s);
      HandleAlbum(requestMethod, parts, s, store).status == Ok <==> c.Some? && Succeeded(c.value, Ask(store, c.value))
  {
  }

  /** 404 for every failed query other than listing the collection. */
  lemma NotFoundExactly(requestMethod: string, parts: seq<string>, s: Option<string>, store: AlbumStore)
    ensures var c := StoreCallOf(requestMethod, parts, s);
      HandleAlbum(requestMethod, parts, s, store).status == NotFound <==>
        c.Some? && !c.value.GetAll? && !Succeeded(c.value, Ask(store, c.value))
  {
  }

  /** On a 200 the body is exactly what the store answered to the query made. */
  lemma SuccessfulQuery(requestMethod: string, parts: seq<string>, s: Option<string>, store: AlbumStore)
    requires HandleAlbum(requestMethod, parts, s, store).status == Ok
    ensures StoreCallOf(requestMethod, parts, s).Some?
    ensures var c := StoreCallOf(requestMethod, parts, s).value;
      Succeeded(c, Ask(store, c)) && HandleAlbum(requestMethod, parts, s, store).body == SuccessBody(Ask(store, c))
  {
    OkExactly(requestMethod, parts, s, store);
  }

  /** The response depends on the store only through the answer to the one query made. */
  lemma ResponseDependsOnlyOnAnswer(requestMethod: string, parts: seq<string>, s: Option<string>, st1: AlbumStore, st2: AlbumStore)
    requires var c := StoreCallOf(requestMethod, parts, s); c.Some? ==> Ask(st1, c.value) == Ask(st2, c.value)
    ensures HandleAlbum(requestMethod, parts, s, st1) == HandleAlbum(requestMethod, parts, s, st2)
  {
  }

  /** Any method but GET is refused, whatever the path and the query. */
  lemma MethodCheck(requestMethod: string, parts: seq<string>, s: Option<string>, store: AlbumStore)
    requires requestMethod != "GET"
    ensures HandleAlbum(requestMethod, parts, s, store) == Response(MethodNotAllowed, Error(MethodNotAllowedMessage))
  {
  }

  /**
   * With `s` present (even empty) a GET searches, whatever the path: a failed
   * search is a 404 naming the query, any list (even empty) a 200 with it.
   */
  lemma SearchTakesPriority(parts: seq<string>, parts': seq<string>, title: string, store: AlbumStore)
    ensures HandleAlbum("GET", parts, Some(title), store) == HandleAlbum("GET", parts', Some(title), store)
    ensures store.search(title).RowsFail? ==>
      HandleAlbum("GET", parts, Some(title), store) == Response(NotFound, Error("Album with title '" + title + "' not found."))
    ensures store.search(title).Rows? ==>
      HandleAlbum("GET", parts, Some(title), store) == Response(Ok, RowList(store.search(title).rows))
  {
  }

  /** `GET /albums`: 500 when the store fails, otherwise 200 with the list (`[]` when empty). */
  lemma CollectionListing(store: AlbumStore)
    ensures store.getAll.RowsFail? ==>
      HandleAlbum("GET", [], None, store) == Response(InternalServerError, Error(ListFailedMessage))
    ensures store.getAll.Rows? ==>
      HandleAlbum("GET", [], None, store) == Response(Ok, RowList(store.getAll.rows))
    ensures store.getAll == Rows([]) ==> HandleAlbum("GET", [], None, store) == Response(Ok, RowList([]))
  {
  }

  /** `GET /albums/{id}` asks for `(int)` of the segment: 404 naming that id, or 200 with the row. */
  lemma SingleAlbum(segment: string, store: AlbumStore)
    requires IsNumeric(segment)
    ensures store.get(ToInt(segment)).RowFail? ==>
      HandleAlbum("GET", [segment], None, store) == Response(NotFound, Error(AlbumNotFoundMessage(ToInt(segment))))
    ensures store.get(ToInt(segment)).Found? ==>
      HandleAlbum("GET", [segment], None, store) == Response(Ok, Single(store.get(ToInt(segment)).row))
  {
  }

  /**
   * For a segment written the way PHP prints integers, the not-found message
   * quotes the segment verbatim.
   */
  lemma AlbumNotFoundQuotesSegment(segment: string, store: AlbumStore)
    requires IsCanonical(segment) && InPhpIntRange(NumeralValue(segment))
    requires store.get(ToInt(segment)).RowFail?
    ensures HandleAlbum("GET", [segment], None, store) ==
      Response(NotFound, Error("Album with ID " + segment + " not found."))
  {
    IntToStringOfCanonical(segment);
  }

  /** `GET /albums/{id}/tracks`: a failed or empty track list is a 404, a non-empty one a 200. */
  lemma AlbumTracks(segment: string, store: AlbumStore)
    requires IsNumeric(segment)
    ensures var tracks := store.getTracksByAlbumId(ToInt(segment));
      tracks.RowsFail? || tracks == Rows([]) ==>
        HandleAlbum("GET", [segment, "tracks"], None, store) == Response(NotFound, Error(NoTracksMessage(ToInt(segment))))
    ensures var tracks := store.getTracksByAlbumId(ToInt(segment));
      tracks.Rows? && tracks.rows != [] ==>
        HandleAlbum("GET", [segment, "tracks"], None, store) == Response(Ok, RowList(tracks.rows))
  {
  }

  /** The no-tracks message also quotes a canonically written id verbatim. */
  lemma NoTracksQuotesSegment(segment: string, store: AlbumStore)
    requires IsCanonical(segment) && InPhpIntRange(NumeralValue(segment))
    requires var tracks := store.getTracksByAlbumId(ToInt(segment)); tracks.RowsFail? || tracks == Rows([])
    ensures HandleAlbum("GET", [segment, "tracks"], None, store) ==
      Response(NotFound, Error("No tracks found for album ID " + segment + "."))
  {
    IntToStringOfCanonical(segment);
  }

  /** Every other GET shape without `s` is a 400. */
  lemma InvalidPath(parts: seq<string>, store: AlbumStore)
    requires parts != [] && !ItemPath(parts) && !TracksPath(parts)
    ensures HandleAlbum("GET", parts, None, store) == Response(BadRequest, Error(InvalidPathMessage))
  {
  }
}
