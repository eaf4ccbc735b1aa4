# Album API front script, modelled in Dafny

This project models `public/index.php`, the single entry point of the album
API. The script does four things:

- It takes the request path, strips the slashes at both ends and splits it on `/`.
- It drops one leading `exam` segment.
- It shifts the resource name off the segments that remain.
- It sends an `albums` request to `handleAlbum`; any other resource gets
  `404 {"error":"Resource not found"}`.

`handleAlbum` refuses every method other than GET with a 405. For a GET it
picks one store query from the `s` query parameter and the shape of the
remaining segments:

| request | query | failure | success |
|---|---|---|---|
| `s` present, any path | search for `s` | 404 that names the title | 200 with the list |
| no segments | list every album | 500 | 200 with the list, `[]` when empty |
| one numeric segment | fetch one album | 404 that names the id | 200 with the row |
| a numeric segment, then `tracks` | list the album's tracks | 404 that names the id, also when the list is empty | 200 with the list |

Every other GET shape is a 400.

The model is organised in modules:

- `PhpStrings` (`php_strings.dfy`): `trim($s, '/')`, `explode('/', $s)` and
  their inverse `implode`.
- `PhpNumbers` (`php_numbers.dfy`): `is_numeric`, the `(int)` cast and the
  rendering of an integer inside a string.
- `AlbumModel` (`album_model.dfy`): the store. Each of the four Album queries
  either fails (PHP `false`) or returns rows. A store is any fixed assignment
  of answers to the queries.
- `AlbumHandler` (`album_handler.dfy`): `handleAlbum`, as a function from the
  method, the segments, `s` and the store to a status code and a JSON body.
- `Router` (`router.dfy`): the path parsing and the switch.
  - `ParsePath` and `Route` are the specification functions.
  - `Serve` is the script itself: a method that reassigns its locals step by
    step. PHP arrays are values, so `array_shift` on the local `$parts` is a
    reassignment.
  - `Serve` is proved equal to `Route`.
- `Wrappers` (`wrappers.dfy`): `Option`.

Inputs:

- The request is its method, the path component of the URI, the `s` query
  parameter (`None` when absent) and the store.
- The response is a status and a body. The body is an error message, a list
  of rows or a single row.

## Model

| member | source | states |
|---|---|---|
| PhpStrings.Trim | public/index.php:15 | `trim($path, '/')` leaves no slash at either end and never lengthens the path |
| PhpStrings.TrimBounds | public/index.php:15 | what `trim` keeps is a middle piece of the path, and everything removed before and after it is slashes |
| PhpStrings.TrimFramed | public/index.php:15 | a string without edge slashes, framed by any runs of slashes, trims back to exactly that string |
| PhpStrings.TrimIgnoresEdgeSlashes | public/index.php:15 | adding slashes at either end never changes the trimmed path |
| PhpStrings.TrimUnframed | public/index.php:15 | `trim` leaves a string without edge slashes unchanged |
| PhpStrings.Explode | public/index.php:16 | `explode('/', $path)` gives at least one piece (`[""]` for the empty path), no piece holds a slash, and joining the pieces with `/` gives the path back |
| PhpStrings.ExplodeImplode | public/index.php:16 | the other direction of the round trip: joining slash-free pieces and splitting the result gives the pieces back |
| PhpStrings.ExplodeUnique | public/index.php:16 | `explode` is the only way to cut a string into slash-free pieces that join back to it |
| PhpStrings.ImplodeAppend | public/index.php:16 | joining two piece lists in sequence is joining each and putting a slash between them |
| PhpStrings.ExplodeAppend | public/index.php:16 | splitting at a slash gives the pieces of the left side followed by the pieces of the right side |
| PhpStrings.ExplodeAfterSegment | public/index.php:16 | a slash-free first segment followed by a slash is the first piece, and the pieces of the rest follow |
| PhpStrings.ExplodeJoined | public/index.php:16 | a slash-free segment joined in front of slash-free pieces splits back into that segment and those pieces |
| PhpStrings.ExplodeSingle | public/index.php:16 | the pieces are the single slash-free piece `a` exactly when the string is `a` |
| PhpStrings.ExplodeHead | public/index.php:16-19 | the first piece is the slash-free `a` exactly when the string is `a` or starts with `a/`; the pieces are then `[a]`, or `a` followed by the pieces of what comes after `a/` |
| PhpNumbers.IsNumeric | public/index.php:72 | `is_numeric`, for integer numerals only: it accepts exactly `[+-]?[0-9]+`, a digit or a sign first, at least one digit, and only digits after the first character |
| PhpNumbers.ToInt | public/index.php:73 | `(int)` of a numeric segment is a PHP integer: the numeral's value when that is in range; `PHP_INT_MAX` or `PHP_INT_MIN` when the value is beyond the range but still a finite double; 0 when its magnitude reaches the double overflow bound, at which `is_numeric`'s double reading is infinite |
| PhpNumbers.IntToString | public/index.php:78 | the interpolated `{$albumId}` is a numeral whose value is the id, written canonically: no `+`, no leading zero, no `-0` |
| PhpNumbers.NatToString | public/index.php:78 | the digits of a natural number: non-empty, decimal, no leading zero, value equal to the number |
| PhpNumbers.ToIntOfIntToString | public/index.php:73-78 | a PHP integer rendered into a message and cast back with `(int)` is the same integer |
| PhpNumbers.IntToStringOfCanonical | public/index.php:73-78 | a segment written as PHP prints integers (no `+`, no leading zero, no `-0`) and in range comes back unchanged through `(int)` and interpolation |
| AlbumHandler.SearchNotFoundMessage | public/index.php:52 | the failed-search message quotes the title exactly as given |
| AlbumHandler.AlbumNotFoundMessage | public/index.php:78 | the not-found message quotes the id as a numeral whose value is that id |
| AlbumHandler.NoTracksMessage | public/index.php:90 | the no-tracks message quotes the id as a numeral whose value is that id |
| AlbumHandler.ItemPath | public/index.php:72 | the single-album test (one segment, numeric); such a path is non-empty and ends in a numeric segment, so it is never a track listing's |
| AlbumHandler.TracksPath | public/index.php:84 | the track-listing test (a numeric segment, then `tracks`); such a path is non-empty and ends in a non-numeric segment, so it is never a single album's |
| AlbumHandler.PathShapesDisjoint | public/index.php:72-84 | no path passes both the single-album test and the track-listing test, so the order of the two branches does not matter |
| AlbumHandler.StoreCallOf | public/index.php:44-99 | the one store query a request makes: only GET requests reach the store, and the ids passed are PHP integers |
| AlbumHandler.HandleAlbum | public/index.php:40-105 | the status is one of 200, 400, 404, 405, 500; 405 exactly when the method is not GET; the body is an error object exactly when the status is not 200 |
| AlbumHandler.BadRequestExactly | public/index.php:96-99 | 400 exactly for a GET whose segments (and absent `s`) make no store query |
| AlbumHandler.InternalErrorExactly | public/index.php:58-63 | 500 exactly when the request lists the collection and that listing fails |
| AlbumHandler.OkExactly | public/index.php:47-95 | 200 exactly when the query made succeeds: any list, any found row, a non-empty track list |
| AlbumHandler.NotFoundExactly | public/index.php:47-95 | 404 exactly when a search, a single-album fetch or a track listing does not succeed |
| AlbumHandler.SuccessfulQuery | public/index.php:47-95 | on a 200 the body is what the store returned to the query made: the list or the row as given |
| AlbumHandler.ResponseDependsOnlyOnAnswer | public/index.php:40-105 | two stores that give the same answer to the one query made produce the same response |
| AlbumHandler.MethodCheck | public/index.php:101-104 | any method other than GET is `405 {"error":"Method not allowed."}`, whatever the path and the query |
| AlbumHandler.SearchTakesPriority | public/index.php:45-56 | when `s` is present, even empty, the path does not matter: a failed search is a 404 that names the title, any list (even empty) is a 200 with that list |
| AlbumHandler.CollectionListing | public/index.php:58-70 | `GET /albums`: 500 when the store fails, otherwise 200 with the list, and `[]` when the list is empty |
| AlbumHandler.SingleAlbum | public/index.php:72-82 | `GET /albums/{id}` asks for `(int)` of the segment: a 404 whose message names that id, or a 200 with the row |
| AlbumHandler.AlbumNotFoundQuotesSegment | public/index.php:72-78 | for a canonically written id in range, the not-found message quotes the segment verbatim |
| AlbumHandler.AlbumTracks | public/index.php:84-95 | `GET /albums/{id}/tracks`: a failed or empty track list is a 404 that names the id, a non-empty one a 200 with the list |
| AlbumHandler.NoTracksQuotesSegment | public/index.php:84-90 | for a canonically written id in range, the no-tracks message quotes the segment verbatim |
| AlbumHandler.InvalidPath | public/index.php:96-99 | every other GET shape without `s` is `400 {"error":"Invalid request path."}` |
| Router.ArrayShift | public/index.php:20-23 | `array_shift`: null exactly for an empty array, which then stays empty; otherwise the first element, and the first element followed by the rest is the array |
| Router.ParsePath | public/index.php:14-23 | slashes trimmed, path split, one leading `exam` dropped, resource shifted off; neither the resource nor any remaining part holds a slash |
| Router.NullResource | public/index.php:19-23 | the resource is null exactly when the trimmed path is `exam` |
| Router.UnparsePath | public/index.php:15-23 | when there is a resource, the trimmed path is one of two strings built from the parse: the resource and the parts joined by slashes (only when the resource is not `exam`), or that join with `exam/` in front; the parse does not say which (`albums` and `exam/albums` parse alike) |
| Router.ParseOfSegments | public/index.php:15-23 | joining slash-free segments whose first is not `exam`, provided the joined string neither starts nor ends with a slash, and parsing the result gives that first segment as the resource and the others as the parts (without the edge condition it fails: `["albums", ""]` joins to `albums/`, which parses to parts `[]`) |
| Router.PrefixRemovedOnce | public/index.php:19-23 | a trimmed path that starts with the segment `exam` loses exactly that one segment, and any later `exam` stays |
| Router.ParseIgnoresEdgeSlashes | public/index.php:15-23 | adding slashes at either end of the path never changes the parse |
| Router.ExampleEdgeSlashes | public/index.php:14-23 | `/albums/5/` and `albums/5` both parse to resource `albums` with parts `["5"]` |
| Router.ExampleInteriorEmptySegment | public/index.php:16-23 | `albums//5` keeps the interior empty segment: parts `["", "5"]` |
| Router.ExampleSecondPrefixStays | public/index.php:19-23 | `exam/exam` names the resource `exam` |
| Router.ExampleLaterPrefixStays | public/index.php:19-23 | `albums/exam` keeps `exam` as an ordinary part |
| Router.ExampleRootAndPrefixOnly | public/index.php:15-23 | `/` names the empty resource, `/exam/` names none |
| Router.ShiftFindsAlbums | public/index.php:23-27 | shifting the resource off the pieces finds `albums` exactly when the string is `albums` or starts with `albums/`, and the parts are then the pieces after it |
| Router.AlbumsRoute | public/index.php:14-27 | the segment-based parse and a reading of the trimmed path as a string agree on which requests reach `handleAlbum` and with which parts |
| Router.Route | public/index.php:26-35 | a path that does not name `albums` after the optional prefix is `404 {"error":"Resource not found"}`; any other goes to the handler with the segments after `albums` |
| Router.HandlerNeverSaysResourceNotFound | public/index.php:26-35 | the handler never produces the router's own not-found response |
| Router.UnknownResource | public/index.php:23-35 | a request gets the router's not-found response exactly when its resource is not `albums`; this covers the empty resource and the null one |
| Router.RouteIgnoresEdgeSlashes | public/index.php:15-35 | `/albums/5/` and `albums/5` are the same request |
| Router.Serve | public/index.php:11-35 | the step-by-step script (trim, explode, conditional shift of `exam`, shift of the resource, switch) computes exactly `Route` |

## Left out

- `parse_url` (line 14): the model starts from the path component of the URI. A URI without a path gives `null`, and `trim(null)` gives `""`, so that case is the empty path. `ParseIgnoresEdgeSlashes` and `RouteIgnoresEdgeSlashes` hold for the path component only: on the raw URI a leading `//` starts an authority, so `//albums/5` has host `albums` and path `/5`, and an extra leading slash there can change the route.
- `header`, `http_response_code`, `json_encode` and `echo`: a response is a status and an abstract JSON body. Neither the encoding of rows nor the encoding of error objects is modelled.
- The Album queries (`src/models/Album.php`) are abstracted as a store of answers. Their SQL, the database connection and the credentials configuration are not part of this model. The model therefore does not capture three things:
  - `new Album()` opens the connection before the method check.
  - A failed connection leaves the PDO handle null, and every query then ends in a fatal error rather than in `false`.
  - The configuration check inside `new Album()` (src/DBCredentials.php:16-21 and 25-30) stops the script when the configuration file is missing, unreadable or incomplete. Every `/albums` request, POST included, is then `500 {"error":"Internal Server Error: Configuration issue"}`.
- The logger: it only writes to a file.
- The other models (Artist, Track, Playlist, Genre, MediaType) and the interfaces: the script does not use them.
- PhpNumbers.IsNumeric: does not model decimals such as `5.0`, exponents such as `5e1`, or leading and trailing whitespace. It accepts exactly an optional sign followed by one or more ASCII digits.
- PhpNumbers.ToInt: the value is computed only for such integer numerals. Beyond PHP's 64-bit range the cast goes through a double: it is capped to the range while the double is finite, and it is 0 once the numeral's magnitude reaches (2^54 - 1) * 2^970, where the double is infinite. Both follow the PHP engine's handling of overflowing numeric strings, which is part of the PHP interpreter, not of this repository.
- `s` given as an array (`?s[]=x`): PHP would raise a type error when that array is passed to `search(string)`. The model takes `s` as an optional string.
- Row values: a row is a list of column names and values as strings. The database's value types are not modelled.
