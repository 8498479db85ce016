/**
 * What the ingestion core sees of the remote job-search API: the outcome of
 * one GET request (request construction, transport, status, body read and
 * JSON decoding), with the transport and the JSON decoder abstracted away.
 */
module Http {
  import opened Wrappers

  const StatusOK := 200
  const StatusForbidden := 403
  const StatusNotFound := 404
  const StatusTooManyRequests := 429

  /** A decoded JSON value: only whether it is a string matters to the core. */
  datatype JsonValue = JString(str: string) | JNonString

  /** A decoded JSON object, Go's `map[string]interface{}`. */
  type Payload = map<string, JsonValue>

  /**
   * The body of a response: reading it failed, or it was read and then
   * decoded into a `T` (`None` when `json.Unmarshal` rejects it).
   */
  datatype Body<T> = ReadError | Read(decoded: Option<T>)

  /**
   * One request: `http.NewRequest` failed, `client.Do` failed, or a
   * response arrived. The body is consulted only where the code reads it.
   */
  datatype Response<T> =
    | RequestError
    | TransportError
    | Responded(status: int, body: Body<T>)

  /** One element of the search response's `items` array. */
  datatype SearchItem = SearchItem(id: string)

  /** The decoded search page (`VacancySearchResponse`). */
  datatype SearchResponse = SearchResponse(found: int, pages: int, perPage: int, page: int, items: seq<SearchItem>)

  /**
   * What the stand-alone client decodes a search page into: only `pages`
   * and the items' `id`s, so it accepts bodies whose other fields
   * `SearchResponse` would reject.
   */
  datatype IdPage = IdPage(pages: int, items: seq<SearchItem>)

  /** The `id` of every item, one per item, in item order. */
  function ItemIds(items: seq<SearchItem>): (ids: seq<string>)
    ensures |ids| == |items|
    ensures forall i :: 0 <= i < |items| ==> ids[i] == items[i].id
  {
    if |items| == 0 then [] else [items[0].id] + ItemIds(items[1..])
  }
}
