/**
 * The Album data-access class as the router sees it: four queries, each of
 * which either fails (PHP `false`: a store error, or for `get` a missing row)
 * or returns rows. The SQL behind them belongs to the database and is not
 * modelled; a store is any fixed assignment of answers to the four queries.
 */
module AlbumModel {

  /** One fetched row: column names paired with their values, in column order. */
  type Row = seq<(string, string)>

  /** What `getAll`, `search` and `getTracksByAlbumId` return: `false` or a list, possibly empty. */
  datatype RowsOutcome = RowsFail | Rows(rows: seq<Row>)

  /** What `get` returns: `false` when the query fails or finds nothing, otherwise the row. */
  datatype RowOutcome = RowFail | Found(row: Row)

  /** The answers the store gives, one query per field. */
  datatype AlbumStore = AlbumStore(
    getAll: RowsOutcome,
    search: string -> RowsOutcome,
    get: int -> RowOutcome,
    getTracksByAlbumId: int -> RowsOutcome)

  /** A call the handler makes on the store, with its argument. */
  datatype StoreCall = GetAll | Search(title: string) | Get(id: int) | GetTracksByAlbumId(albumId: int)

  /** The answer to one call. */
  datatype Answer = ListAnswer(list: RowsOutcome) | ItemAnswer(item: RowOutcome)

  function Ask(store: AlbumStore, call: StoreCall): Answer {
    match call
    case GetAll => ListAnswer(store.getAll)
    case Search(title) => ListAnswer(store.search(title))
    case Get(id) => ItemAnswer(store.get(id))
    case GetTracksByAlbumId(albumId) => ListAnswer(store.getTracksByAlbumId(albumId))
  }
}
