/**
 * One attempt at one vacancy: `processVacancy` in main.go. The detail
 * request and the MongoDB upsert are oracle inputs; the attempt's verdict,
 * the hash cache afterwards and the upsert it issued are the outputs.
 */
module Process {
  import opened Wrappers
  import opened Http
  import opened Hashing
  import opened SafeMaps
  import Api

  const IdField := "id"
  const DescriptionField := "description"
  const DescriptionHashField := "description_hash"

  /** What the world answers to one attempt: the detail response, and whether an upsert would succeed. */
  datatype Exchange = Exchange(response: Response<Payload>, upsertOk: bool)

  /**
   * How an attempt ended. `Stored` and `Duplicate` are both Go's `nil`;
   * the other two are `ErrRetryable` and `ErrNonRetryable`.
   */
  datatype Verdict = Stored | Duplicate | Retryable | NonRetryable {
    predicate IsNil() {
      Stored? || Duplicate?
    }
  }

  /** `collection.UpdateOne(filter {"id": data["id"]}, {"$set": data}, upsert)`. */
  datatype UpsertCall = UpsertCall(filterId: Option<JsonValue>, fields: Payload)

  datatype Attempt = Attempt(verdict: Verdict, hashes: SafeMap, upsert: Option<UpsertCall>)

  /** Go's `m[k]` on a decoded map, with absence made explicit. */
  function Lookup(data: Payload, k: string): Option<JsonValue> {
    if k in data then Some(data[k]) else None
  }

  /** The string `description` of a successfully fetched and decoded vacancy, if it has one. */
  function Description(resp: Response<Payload>): Option<string> {
    if resp.Responded? && resp.status == StatusOK && resp.body.Read? && resp.body.decoded.Some?
    then
      match Lookup(resp.body.decoded.value, DescriptionField)
      case Some(JString(d)) => Some(d)
      case _ => None
    else None
  }

  /** The response is a 200 whose body was read (decodable or not). */
  predicate BodyRead(resp: Response<Payload>) {
    resp.Responded? && resp.status == StatusOK && resp.body.Read?
  }

  /**
   * `processVacancy`. Classification: 404, an undecodable body and a
   * missing or non-string description are non-retryable; request and
   * transport errors, any status other than 200 and 404, a body-read error
   * and a failed upsert are retryable. Dedup: a known hash means no upsert,
   * an unchanged cache and `nil`; otherwise the hash is added only once the
   * upsert succeeded.
   */
  function ProcessVacancy(ex: Exchange, hashes: SafeMap, md5: string -> Digest): (r: Attempt)
    ensures r.verdict == NonRetryable <==>
      (ex.response.Responded? && ex.response.status == StatusNotFound)
      || (BodyRead(ex.response) && Description(ex.response).None?)
    ensures r.verdict == Retryable <==>
      || ex.response.RequestError? || ex.response.TransportError?
      || (ex.response.Responded? && ex.response.status !in {StatusOK, StatusNotFound})
      || (ex.response.Responded? && ex.response.status == StatusOK && ex.response.body.ReadError?)
      || (r.upsert.Some? && !ex.upsertOk)
    ensures r.verdict.IsNil() || r.upsert.Some? ==> Description(ex.response).Some?
    ensures Description(ex.response).Some? ==>
      var h := MD5Hash(md5, Description(ex.response).value);
      && (r.verdict == Duplicate <==> hashes.Exists(h))
      && (r.upsert.Some? <==> !hashes.Exists(h))
      && (r.verdict == Stored <==> !hashes.Exists(h) && ex.upsertOk)
      && (r.verdict == Stored ==> r.hashes == hashes.Add(h))
    ensures r.verdict != Stored ==> r.hashes == hashes
    ensures r.upsert.Some? ==>
      var data := ex.response.body.decoded.value;
      var fields := r.upsert.value.fields;
      && r.upsert.value.filterId == Lookup(data, IdField)
      && fields.Keys == data.Keys + {DescriptionHashField}
      && fields[DescriptionHashField] == JString(MD5Hash(md5, Description(ex.response).value))
      && (forall k :: k in data && k != DescriptionHashField ==> fields[k] == data[k])
  {
    match ex.response
    case RequestError => Attempt(Retryable, hashes, None)
    case TransportError => Attempt(Retryable, hashes, None)
    case Responded(status, body) =>
      if status == StatusOK then
        match body
        case ReadError => Attempt(Retryable, hashes, None)
        case Read(None) => Attempt(NonRetryable, hashes, None)
        case Read(Some(data)) =>
          match Lookup(data, DescriptionField)
          case Some(JString(description)) =>
            var h := MD5Hash(md5, description);
            if hashes.Exists(h) then Attempt(Duplicate, hashes, None)
            else
              var call := UpsertCall(Lookup(data, IdField), data[DescriptionHashField := JString(h)]);
              if ex.upsertOk then Attempt(Stored, hashes.Add(h), Some(call))
              else Attempt(Retryable, hashes, Some(call))
          case _ => Attempt(NonRetryable, hashes, None)
      else if status == StatusNotFound then Attempt(NonRetryable, hashes, None)
      else Attempt(Retryable, hashes, None)
  }

  /**
   * The pipeline's classification and the stand-alone client's error
   * taxonomy (api/main.go) agree: what the client reports as not found or
   * as a decode failure the pipeline never retries; what it reports as rate
   * limited, as any other status, or as a request, transport or read failure
   * the pipeline retries.
   */
  lemma PipelineAgreesWithApiClient(ex: Exchange, hashes: SafeMap, md5: string -> Digest)
    ensures var v := ProcessVacancy(ex, hashes, md5).verdict;
      match Api.GetVacancyDetails(ex.response)
      case Failure(e) =>
        (v == NonRetryable <==> e.Is(Api.ErrVacancyNotFound) || e == Api.ParseFailed)
        && (v == Retryable <==> !e.Is(Api.ErrVacancyNotFound) && e != Api.ParseFailed)
      case Success(data) =>
        v == NonRetryable <==> Lookup(data, DescriptionField).None? || Lookup(data, DescriptionField).value.JNonString?
  {
  }
}
