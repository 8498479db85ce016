/** The stand-alone API client of api/main.go (`HHClient`). */
module Api {
  import opened Wrappers
  import opened Http

  /** The sentinel errors `ErrVacancyNotFound` and `ErrRateLimited`. */
  datatype Sentinel = ErrVacancyNotFound | ErrRateLimited

  /** The errors the client returns, by the `fmt.Errorf` site that builds them. */
  datatype ApiError =
    | RequestFailed
    | HttpFailed
    | UnexpectedStatus(code: int)
    | ReadFailed
    | ParseFailed
    | VacancyNotFound
    | RateLimited
  {
    /** The sentinel wrapped with `%w`, if any. */
    function Wrapped(): Option<Sentinel> {
      match this
      case VacancyNotFound => Some(ErrVacancyNotFound)
      case RateLimited => Some(ErrRateLimited)
      case _ => None
    }

    /** `errors.Is(err, s)`. */
    predicate Is(s: Sentinel) {
      Wrapped() == Some(s)
    }
  }

  /**
   * `GetVacancyIDs`: a non-200 status is an error before the body is read;
   * on success the IDs are the items' IDs in order and `pages` is passed
   * through unchanged. Errors carry no IDs (Go returns `nil, 0, err`).
   */
  function GetVacancyIDs(resp: Response<IdPage>): (r: Result<(seq<string>, int), ApiError>)
    ensures r.Success? <==>
      resp.Responded? && resp.status == StatusOK && resp.body.Read? && resp.body.decoded.Some?
    ensures resp.Responded? && resp.status != StatusOK ==> r == Failure(UnexpectedStatus(resp.status))
    ensures r.Success? ==>
      var page := resp.body.decoded.value;
      && |r.value.0| == |page.items|
      && (forall i :: 0 <= i < |page.items| ==> r.value.0[i] == page.items[i].id)
      && r.value.1 == page.pages
    ensures r.Failure? ==> !r.error.Is(ErrVacancyNotFound) && !r.error.Is(ErrRateLimited)
  {
    match resp
    case RequestError => Failure(RequestFailed)
    case TransportError => Failure(HttpFailed)
    case Responded(status, body) =>
      if status != StatusOK then Failure(UnexpectedStatus(status))
      else
        match body
        case ReadError => Failure(ReadFailed)
        case Read(None) => Failure(ParseFailed)
        case Read(Some(page)) => Success((ItemIds(page.items), page.pages))
  }

  /**
   * `GetVacancyDetails`: data only for status 200 with a decodable body;
   * 404 wraps `ErrVacancyNotFound`, 403 and 429 wrap `ErrRateLimited`, and
   * no other outcome wraps either sentinel.
   */
  function GetVacancyDetails(resp: Response<Payload>): (r: Result<Payload, ApiError>)
    ensures r.Success? <==>
      resp.Responded? && resp.status == StatusOK && resp.body.Read? && resp.body.decoded.Some?
    ensures r.Success? ==> r.value == resp.body.decoded.value
    ensures r.Failure? && r.error.Is(ErrVacancyNotFound) <==>
      resp.Responded? && resp.status == StatusNotFound
    ensures r.Failure? && r.error.Is(ErrRateLimited) <==>
      resp.Responded? && (resp.status == StatusForbidden || resp.status == StatusTooManyRequests)
    ensures resp.Responded? && resp.status !in {StatusOK, StatusNotFound, StatusForbidden, StatusTooManyRequests} ==>
      r == Failure(UnexpectedStatus(resp.status))
  {
    match resp
    case RequestError => Failure(RequestFailed)
    case TransportError => Failure(HttpFailed)
    case Responded(status, body) =>
      if status == StatusOK then
        match body
        case ReadError => Failure(ReadFailed)
        case Read(None) => Failure(ParseFailed)
        case Read(Some(data)) => Success(data)
      else if status == StatusNotFound then Failure(VacancyNotFound)
      else if status == StatusForbidden || status == StatusTooManyRequests then Failure(RateLimited)
      else Failure(UnexpectedStatus(status))
  }
}
