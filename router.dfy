/**
 * The front script: it turns the request path into a resource name and the
 * remaining segments, and sends `albums` requests to the album handler;
 * every other resource is a 404.
 */
module Router {
  import opened Wrappers
  import opened PhpStrings
  import opened AlbumModel
  import opened AlbumHandler

  /** The optional first path segment that is removed before routing. */
  const Prefix: string := "exam"

  const ResourceNotFound: Response := Response(NotFound, Error("Resource not found"))

  /** The resource name (null when no segment is left) and the segments after it. */
  datatype ParsedPath = ParsedPath(resource: Option<string>, parts: seq<string>)

  /**
   * `$resource = array_shift($parts)`: the first element (null for an empty
   * array) and what remains once it is removed.
   */
  function ArrayShift(a: seq<string>): (r: ParsedPath)
    ensures r.resource.None? <==> a == []
    ensures r.resource.None? ==> r.parts == []
    ensures r.resource.Some? ==> [r.resource.value] + r.parts == a
  {
    if a == [] then ParsedPath(None, []) else ParsedPath(Some(a[0]), a[1..])
  }

  /**
   * Lines 14-23 of the script: trim the slashes, split on `/`, drop one
   * leading `exam` segment (`explode` never returns an empty array, so the
   * emptiness test always passes), then shift off the resource name. No
   * resulting name or segment holds a slash.
   */
  function ParsePath(path: string): (r: ParsedPath)
    ensures r.resource.Some? ==> NoSlash(r.resource.value)
    ensures forall i :: 0 <= i < |r.parts| ==> NoSlash(r.parts[i])
  {
    var segments := Explode(Trim(path));
    if segments[0] == Prefix then ArrayShift(segments[1..]) else ArrayShift(segments)
  }

  /** The resource is null exactly when the trimmed path is `exam` (`/exam`, `exam/`, ...). */
  lemma NullResource(path: string)
    ensures ParsePath(path).resource.None? <==> Trim(path) == Prefix
  {
    ExplodeSingle(Trim(path), Prefix);
  }

  /**
   * The trimmed path is one of two strings built from the parse: the
   * resource and the parts joined by slashes (possible only when the
   * resource is not `exam`), or that join preceded by `exam/`. The parse does
   * not record which: `albums` and `exam/albums` parse alike.
   */
  lemma UnparsePath(path: string)
    requires ParsePath(path).resource.Some?
    ensures var r := ParsePath(path);
      (r.resource.value != Prefix && Trim(path) == Implode([r.resource.value] + r.parts))
      || Trim(path) == Prefix + [Slash] + Implode([r.resource.value] + r.parts)
  {
    var segments := Explode(Trim(path));
    if segments[0] == Prefix {
      assert segments == [Prefix] + segments[1..];
      ImplodeAppend([Prefix], segments[1..]);
    }
  }

  /** Joining slash-free segments and parsing the result gives them back. */
  lemma ParseOfSegments(segments: seq<string>)
    requires |segments| >= 1 && forall i :: 0 <= i < |segments| ==> NoSlash(segments[i])
    requires segments[0] != Prefix
    requires NoEdgeSlash(Implode(segments))
    ensures ParsePath(Implode(segments)) == ParsedPath(Some(segments[0]), segments[1..])
  {
    ExplodeImplode(segments);
    TrimUnframed(Implode(segments));
  }

  /**
   * A trimmed path that starts with the segment `exam` loses exactly that one
   * segment: the resource and the parts come from what follows it.
   */
  lemma PrefixRemovedOnce(path: string)
    requires HasSegmentPrefix(Trim(path), Prefix)
    ensures ParsePath(path) == ArrayShift(Explode(Trim(path)[|Prefix| + 1..]))
  {
    ExplodeHead(Trim(path), Prefix);
  }

  /** Leading and trailing slashes, any number of them, do not change the parse. */
  lemma ParseIgnoresEdgeSlashes(p: string, path: string, q: string)
    requires AllSlash(p) && AllSlash(q)
    ensures ParsePath(p + path + q) == ParsePath(path)
  {
    TrimIgnoresEdgeSlashes(p, path, q);
  }

  /** `/albums/5/` and `albums/5` both name album 5. */
  lemma ExampleEdgeSlashes()
    ensures ParsePath("/albums/5/") == ParsePath("albums/5") == ParsedPath(Some("albums"), ["5"])
  {
    assert Implode(["albums", "5"]) == "albums/5";
    ParseOfSegments(["albums", "5"]);
    assert "/albums/5/" == "/" + "albums/5" + "/";
    ParseIgnoresEdgeSlashes("/", "albums/5", "/");
  }

  /** An interior empty segment survives as `""`. */
  lemma ExampleInteriorEmptySegment()
    ensures ParsePath("albums//5") == ParsedPath(Some("albums"), ["", "5"])
  {
    assert Implode(["albums", "", "5"]) == "albums//5";
    ParseOfSegments(["albums", "", "5"]);
  }

  /** Only the first `exam` is removed: `exam/exam` names the resource `exam`. */
  lemma ExampleSecondPrefixStays()
    ensures ParsePath("exam/exam") == ParsedPath(Some(Prefix), [])
  {
    var t := "exam/exam";
    TrimUnframed(t);
    assert t[..|Prefix| + 1] == Prefix + [Slash];
    PrefixRemovedOnce(t);
    assert Trim(t)[|Prefix| + 1..] == Prefix;
    TrimUnframed(Prefix);
    NullResource(Prefix);
  }

  /** A later `exam` is an ordinary segment. */
  lemma ExampleLaterPrefixStays()
    ensures ParsePath("albums/exam") == ParsedPath(Some("albums"), [Prefix])
  {
    assert Implode(["albums", Prefix]) == "albums/exam";
    ParseOfSegments(["albums", Prefix]);
  }

  /** `/` names the empty resource; `/exam/` names none. */
  lemma ExampleRootAndPrefixOnly()
    ensures ParsePath("/") == ParsedPath(Some(""), [])
    ensures ParsePath("/exam/") == ParsedPath(None, [])
  {
    assert "/" == "/" + "" + "";
    ParseIgnoresEdgeSlashes("/", "", "");
    assert Implode([""]) == "";
    ParseOfSegments([""]);
    assert "/exam/" == "/" + Prefix + "/";
    ParseIgnoresEdgeSlashes("/", Prefix, "/");
    TrimUnframed(Prefix);
    NullResource(Prefix);
  }

  /**
   * Which trimmed paths reach the album handler, and with which segments,
   * read off the string itself: `albums` or `exam/albums` alone give no
   * segments, `albums/...` or `exam/albums/...` give the pieces after it.
   */
  function AlbumRequestParts(t: string): Option<seq<string>> {
    AfterAlbums(if HasSegmentPrefix(t, Prefix) then t[|Prefix| + 1..] else t)
  }

  function AfterAlbums(rest: string): Option<seq<string>> {
    if rest == "albums" then Some([])
    else if HasSegmentPrefix(rest, "albums") then Some(Explode(rest[|"albums"| + 1..]))
    else None
  }

  /** Shifting the resource off the pieces of `rest` finds `albums` exactly when the string reading does. */
  lemma ShiftFindsAlbums(rest: string)
    ensures ArrayShift(Explode(rest)).resource == Some("albums") <==> AfterAlbums(rest).Some?
    ensures AfterAlbums(rest).Some? ==> ArrayShift(Explode(rest)).parts == AfterAlbums(rest).value
  {
    ExplodeHead(rest, "albums");
  }

  /** The segment-based parse and the string-based reading agree on album requests. */
  lemma AlbumsRoute(path: string)
    ensures ParsePath(path).resource == Some("albums") <==> AlbumRequestParts(Trim(path)).Some?
    ensures AlbumRequestParts(Trim(path)).Some? ==> ParsePath(path).parts == AlbumRequestParts(Trim(path)).value
  {
    var t := Trim(path);
    ExplodeHead(t, Prefix);
    if HasSegmentPrefix(t, Prefix) {
      ShiftFindsAlbums(t[|Prefix| + 1..]);
    } else if t == Prefix {
      assert AfterAlbums(t) == None;
    } else {
      ShiftFindsAlbums(t);
    }
  }

  /**
   * The whole script as a function of the request: a path that does not name
   * `albums` (after the optional prefix) is a 404, any other goes to the
   * album handler with the segments after `albums`.
   */
  function Route(requestMethod: string, path: string, s: Option<string>, store: AlbumStore): (r: Response)
    ensures AlbumRequestParts(Trim(path)).None? ==> r == ResourceNotFound
    ensures AlbumRequestParts(Trim(path)).Some? ==>
      r == HandleAlbum(requestMethod, AlbumRequestParts(Trim(path)).value, s, store)
  {
    AlbumsRoute(path);
    var parsed := ParsePath(path);
    if parsed.resource == Some("albums") then HandleAlbum(requestMethod, parsed.parts, s, store)
    else ResourceNotFound
  }

  /** The handler never produces the router's own not-found response. */
  lemma HandlerNeverSaysResourceNotFound(requestMethod: string, parts: seq<string>, s: Option<string>, store: AlbumStore)
    ensures HandleAlbum(requestMethod, parts, s, store) != ResourceNotFound
  {
    var r := HandleAlbum(requestMethod, parts, s, store);
    if r.status == NotFound {
      assert r.body.message[0] != ResourceNotFound.body.message[0];
    }
  }

  /**
   * A request gets the router's not-found response exactly when its resource
   * is not `albums`; this covers `/` (resource `""`) and `/exam` (no resource).
   */
  lemma UnknownResource(requestMethod: string, path: string, s: Option<string>, store: AlbumStore)
    ensures Route(requestMethod, path, s, store) == ResourceNotFound <==> ParsePath(path).resource != Some("albums")
  {
    HandlerNeverSaysResourceNotFound(requestMethod, ParsePath(path).parts, s, store);
  }

  /** `/albums/5/` and `albums/5` are the same request. */
  lemma RouteIgnoresEdgeSlashes(requestMethod: string, p: string, path: string, q: string, s: Option<string>, store: AlbumStore)
    requires AllSlash(p) && AllSlash(q)
    ensures Route(requestMethod, p + path + q, s, store) == Route(requestMethod, path, s, store)
  {
    ParseIgnoresEdgeSlashes(p, path, q);
  }

  /**
   * The script itself, step by step: `$path` is reassigned by `trim`, `$parts`
   * by `explode` and by each `array_shift` (PHP arrays are values, so the
   * in-place shift of a local array is a reassignment), then the switch.
   */
  method Serve(requestMethod: string, requestPath: string, s: Option<string>, store: AlbumStore)
    returns (response: Response)
    ensures response == Route(requestMethod, requestPath, s, store)
  {
    var path := Trim(requestPath);
    var parts := Explode(path);
    if |parts| > 0 && parts[0] == Prefix {
      parts := ArrayShift(parts).parts;
    }
    var shifted := ArrayShift(parts);
    var resource := shifted.resource;
    parts := shifted.parts;
    if resource == Some("albums") {
      response := HandleAlbum(requestMethod, parts, s, store);
    } else {
      response := ResourceNotFound;
    }
  }
}
