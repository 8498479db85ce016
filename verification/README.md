# hh_it_scrapper ingestion core, in Dafny

This project models how hh_it_scrapper ingests vacancies from the hh.ru API
into MongoDB, and proves properties of that model. The run has five parts:

- The stored `(id, description_hash)` pairs are loaded into two caches: an ID
  snapshot and a `SafeMap` of description hashes.
- The paged vacancy search is walked page by page (`fetchAndStoreVacancies`).
- IDs already in the snapshot are filtered out of each page.
- Every remaining ID gets a detail fetch with up to `MaxRetries = 3` retries
  (`fetchVacancyDetails`).
- Each fetched vacancy is classified and deduplicated by the MD5 of its
  `description`, then upserted with `description_hash` set (`processVacancy`).

Modules:

- `Wrappers`: `Option` and `Result`.
- `Hashing`: `md5Hash` / `MD5Hash`, the lower-case hex encoding of a 16-byte
  digest, and its inverse.
- `SafeMaps`: the lock-guarded string set of main.go.
- `Http`: what a request can come back as. The cases are:
  - the request could not be built;
  - the transport failed;
  - a status, with a body that could not be read, or with a body that was
    read and did or did not decode.
  Decoded search pages and vacancy payloads are plain data. The page loop
  decodes a search page into the full `VacancySearchResponse`. The
  stand-alone client decodes it into `pages` and item IDs only
  (`Http.IdPage`), so it can accept a body the page loop rejects. A JSON value is
  either a string or not, which is the only distinction the code draws.
- `Api`: `GetVacancyIDs`, `GetVacancyDetails` and the sentinel errors of the
  stand-alone `HHClient` (api/main.go).
- `Process`: `processVacancy`, one attempt at one vacancy.
- `Retry`: the per-key retry loop and `fetchVacancyDetails` over a batch of keys.
- `Pagination`: `fetchAndStoreVacancies`, the page loop and its detail fetches.
- `Seeding`: the cursor scan and main.go's `loadExistingData`.
- `Storage`: `MongoStore` of storage/mongo_store.go.
- `StoreAgreement`: where the store meets main.go's inline code. It covers the
  snapshot filter, the hash `SafeMap` and `processVacancy`'s upsert.

The outside world is a set of parameters:

- **Detail oracle.** Indexed by page, key and attempt number, it gives the
  detail response and whether the upsert succeeds.
- **Search response.** One per page.
- **Cursor.** The documents `Find` yields, and whether `cursor.Err()` fails.
- **Digest.** A function `md5: string -> Digest`.

The detail fetches never influence the page loop, because
`fetchVacancyDetails` always returns `nil`. So the loop is modelled first,
recording the keys each decoded page dispatches. Those dispatches are then
fetched in order, with the hash cache threaded through.

## Model

| member | source | states |
|---|---|---|
| `SafeMaps.SafeMap.Add` | main.go:68-81 | After `Add(k)`, `Exists(k)` holds. Every key that existed still exists, and no other key appears. |
| `SafeMaps.SafeMap.Exists` | main.go:68-74 | A key exists iff it was added. This is what `Add`, the store's hash cache (`StoreAgreement.HashCacheIsSafeMap`) and the retry loop's deduplication rely on. |
| `Hashing.HexRoundTrip` | main.go:453-456 | Decoding the hex encoding of any byte string gives that byte string back. |
| `Hashing.HexEncodeInjective` | main.go:453-456 | Distinct byte strings never share a hex encoding. |
| `Hashing.MD5Hash` | api/main.go:112-115 | The fingerprint is always 32 lower-case hex characters and decodes to the 16-byte digest of the text. It is a function, so it is deterministic. main.go:453-456 is the same function. |
| `Hashing.MD5HashCollidesOnlyWithDigest` | main.go:413-416 | Two descriptions have the same fingerprint iff their digests agree. |
| `Api.GetVacancyIDs` | api/main.go:32-73 | Success iff status 200 with a body that was read and decoded into `pages` and the items' IDs. Any non-200 status is an `UnexpectedStatus` error, with no IDs. On success there is one ID per item, in item order, and `pages` is unchanged. No error wraps a sentinel. |
| `Api.GetVacancyDetails` | api/main.go:75-110 | Data only for a 200 with a decodable body, and then exactly the decoded payload. The error is `errors.Is(ErrVacancyNotFound)` iff the status is 404, and `errors.Is(ErrRateLimited)` iff it is 403 or 429. Any other status gives `UnexpectedStatus`. |
| `Process.ProcessVacancy` | main.go:371-451 | NonRetryable iff 404, an undecodable body, or a missing or non-string description. Retryable iff one of: a request or transport error; a status other than 200 and 404; a body-read error; a failed upsert. On a description whose hash is known: `nil`, no upsert, cache unchanged. On a new hash: the upsert filters on `data["id"]` and sets the payload plus `description_hash`, and the hash is added iff the upsert succeeded. |
| `Process.PipelineAgreesWithApiClient` | main.go:391-450 | `processVacancy` never retries what the client reports as not found or as a parse failure. It retries everything else the client reports as an error. |
| `Retry.RetryLoop` | main.go:333-358 | Between 1 and `MaxRetries + 1 = 4` attempts. Every attempt before the last was Retryable. The run ends with Retryable only after 4 attempts. The cache changes only if the last attempt stored, and then by exactly that attempt's previously unknown hash. |
| `Retry.RunKey` | main.go:329-359 | One key's goroutine makes between 1 and 4 attempts. Every attempt but the last was Retryable, and a Retryable last attempt means all 4 were spent. The cache gains the stored description's previously unknown hash and nothing else. |
| `Retry.FetchVacancyDetails` | main.go:323-364 | Run `i` is the whole retry loop of `ids[i]`, started from the cache the earlier keys left. The batch ends with the cache the last key left. `savedCount` rises by the number of keys whose last attempt returned `nil`, duplicates included. The cache grows by exactly the added hashes. None of them was known before, and no two are equal. |
| `Retry.Chain` | main.go:327-361 | The key loop, for any per-key run that makes 1 to 4 attempts and adds only a previously unknown hash. Run `i` is that run of `ids[i]` from the cache the earlier keys left. `savedCount` counts the `nil` outcomes. The cache grows by exactly the added hashes, none known before and no two equal. |
| `Retry.EachKeyRunAt` | main.go:329-359 | In any chain of runs, run `i` is `RunKey` of key `i` against its oracle, started from the cache run `i - 1` left (the batch's cache for `i = 0`). |
| `Retry.EachKeyRunAppend` | main.go:281-285 | Two chains, the second started from the cache the first left, form one chain over both key lists. It ends with the cache the second left. |
| `Retry.NotFoundIsAttemptedOnce` | main.go:347-357 | A 404 is attempted once, gives NonRetryable and leaves the cache alone. |
| `Retry.PersistentFailureGivesUp` | main.go:338-346 | A key whose every attempt fails retryably (transport error, unexpected status, body-read error or failed upsert) is attempted exactly 4 times, ends Retryable and leaves the cache alone. |
| `Retry.TransientTwiceThenStored` | main.go:335-343 | Two transient failures followed by a storable new description take 3 attempts, end Stored and add that hash. |
| `Retry.NewDescriptionStoredFirstTry` | main.go:408-437 | A first attempt that gets a new description and a successful upsert ends the key: one attempt, Stored, and the cache gains that description's hash. |
| `Retry.KnownDescriptionIsDuplicate` | main.go:413-420 | A first attempt that gets a description whose hash is already cached ends the key: one attempt, Duplicate, and the cache is unchanged. |
| `Retry.SameContentStoredOnce` | main.go:413-437 | Two keys with the same new description: the first is Stored, the second is a Duplicate after one attempt, the cache gains one hash and `savedCount` rises by 2. |
| `Pagination.FilterNew` | main.go:272-277 | The dispatched IDs are never in the snapshot and never more than the page's IDs. |
| `Pagination.FilterNewKeepsExactlyNew` | main.go:273-277 | Every ID outside the snapshot is kept as many times as the page has it. No ID of the snapshot is kept. |
| `Pagination.FilterNewAppend` | main.go:273-277 | Filtering keeps page order: it distributes over concatenation. |
| `Pagination.FilterNewAllKnown` | main.go:273-277 | A page whose IDs are all known dispatches nothing. |
| `Pagination.FilterNewAllNew` | main.go:273-277 | A page whose IDs are all new dispatches all of them, in order. |
| `Pagination.NewVacancyIds` | main.go:271-277 | A decoded page dispatches no ID of the snapshot, and no more IDs than it has items. |
| `Pagination.NewVacancyIdsKeepsExactlyNew` | main.go:271-277 | A decoded page dispatches each of its IDs outside the snapshot as often as the page lists it. |
| `Pagination.SearchClientAgreesWithDriver` | api/main.go:57-72 | Take one search exchange as seen by both decoders. If the page loop decodes the page (main.go:256-263), `GetVacancyIDs` succeeds with the same page count, and its IDs, filtered, are the keys the loop dispatches. The client succeeding while the loop fails happens only on a 200 body the loop's wider struct rejects. |
| `Pagination.ClientAcceptsPageDriverRejects` | main.go:37-44 | The converse fails. A 200 body that only the client's narrower struct decodes is a failed page for the loop, while the client returns its `pages` and no IDs. |
| `Pagination.PageStep` | main.go:226-311 | Each iteration requests the current page. A `continue` moves to exactly `page + 1`, and a `break` stays on the page. |
| `Pagination.TotalPagesOnlyFromFirstPage` | main.go:265-269 | `totalPages` changes only on a decoded page 0, and then becomes the page count it reports. |
| `Pagination.FailedPageAdvances` | main.go:226-263 | A request, transport, read or parse failure moves to `page + 1`. There is no termination check and nothing else changes. |
| `Pagination.RejectedPageChecksEnd` | main.go:292-310 | A non-200 status breaks iff `page >= totalPages - 1`, dispatches nothing and changes nothing else. |
| `Pagination.DecodedPageChecksEnd` | main.go:271-291 | A decoded page dispatches its new IDs in page order. It then breaks iff `page >= totalPages - 1`, with any page count just learnt counted. |
| `Pagination.Run` | main.go:220-318 | The pages requested are consecutive from the starting page. A finished run stops on the last page it requested. |
| `Pagination.StepDispatchesOnlyNew` | main.go:271-282 | One iteration only appends to the dispatch record, and only keys outside the snapshot. |
| `Pagination.RunDispatchesOnlyNew` | main.go:271-282 | A whole run only appends to the dispatch record, and only keys outside the snapshot. |
| `Pagination.Ingest` | main.go:281-285 | The dispatched batches are fetched in order. Run `i` is the retry loop of dispatched key `i` against its page's detail oracle, started from the cache the earlier keys left, in this batch and earlier ones. `savedCount` rises by the `nil` outcomes. The cache grows by distinct, previously unknown hashes only. |
| `Pagination.FetchAndStoreVacancies` | main.go:216-321 | The pages requested are 0, 1, 2, … in order. Only keys outside the snapshot are fetched. Each fetched key gets the retry loop against its page's detail oracle, from the cache the keys before it left. `savedCount` rises by one per `nil` outcome. The cache grows by distinct, previously unknown hashes only. |
| `Pagination.DecodedPagesRunToTheLast` | main.go:287-291 | When every page decodes, a run from page `p >= 1` with `p < totalPages` stops exactly at page `totalPages - 1`. |
| `Pagination.AllDecodedVisitsEveryPage` | main.go:265-291 | When every page decodes and page 0 reports `n` pages, the run requests pages `0 … n-1` once each, in order, and stops. It requests page 0 alone when `n <= 1`. |
| `Pagination.ThreePagesVisitedInOrder` | main.go:287-291 | With three pages that all decode, the run requests pages 0, 1 and 2, then stops. |
| `Pagination.RejectedFirstPageStops` | main.go:299-301 | A non-200 status on page 0 ends the run at once (`0 >= -1`). Nothing is fetched, and neither `savedCount` nor the cache changes. |
| `Pagination.PersistentFailuresNeverStop` | main.go:226-263 | If every request fails, the run never stops on its own and never learns `totalPages`. |
| `Pagination.FailedPagesThenAnswer` | main.go:226-310 | Start at a page with `totalPages` still 0. Failed pages up to page `p >= 1` are skipped, and page `p` ends the run if it answers at all (decoded or any status). `totalPages` stays 0. Only page `p`, if decoded, adds a batch. |
| `Pagination.FailedPagesEndAtNextAnsweredPage` | main.go:226-310 | Say pages `0 … p-1` all fail and page `p >= 1` answers. Then the run requests exactly pages `0 … p` and stops at `p` with `totalPages` 0. Page `p`'s new IDs are the only batch, if it decoded. |
| `Pagination.TwoDecodedPagesDispatch` | main.go:271-291 | Two decoded pages with one new item each dispatch both items, page by page, and the run stops after page 1. |
| `Seeding.ScanCursor` | main.go:194-206 | Every decoded ID is in the ID set. Only non-empty hashes are in the hash set. The scan stops at the first document that fails to decode. |
| `Seeding.LoadExistingData` | main.go:176-214 | Success iff `Find` succeeded, every document decoded and the cursor reported no error. On success the ID set is exactly the documents' IDs. The hash `SafeMap` is exactly their non-empty hashes. |
| `Storage.LoadExistingData` | storage/mongo_store.go:33-64 | Both caches are replaced by fresh sets before the scan, so earlier contents are gone even when `Find` fails. After the scan they hold exactly the decoded prefix's IDs and non-empty hashes. The error is nil iff everything decoded and the cursor did not fail. |
| `Storage.AddDescriptionHash` | storage/mongo_store.go:71-78 | Afterwards `DescriptionHashExists(h)` holds. Earlier hashes remain, no other hash appears, and the ID cache is untouched. |
| `Storage.VacancyExists` | storage/mongo_store.go:66-69 | Holds exactly for IDs in the loaded snapshot. |
| `StoreAgreement.VacancyExistsDecidesFilter` | storage/mongo_store.go:66-69 | The inline filter of a page's IDs against the snapshot (main.go:271-277) keeps exactly the IDs `VacancyExists` rejects, each as often as listed. |
| `Storage.DescriptionHashExists` | storage/mongo_store.go:71-74 | Holds exactly for hashes in the loaded or added hash cache. |
| `StoreAgreement.HashCacheIsSafeMap` | storage/mongo_store.go:71-78 | The store's hash cache behaves as main.go's `SafeMap`. Holding the same hashes, `DescriptionHashExists` answers as `Exists`, and after adding the same hash both hold the same hashes again. |
| `Storage.UpsertVacancy` | storage/mongo_store.go:80-85 | A failed upsert changes nothing. After a successful one, the document for `data["id"]` exists and holds every field of `data` with its value. It keeps the fields an earlier document had that `data` lacks, and has no field from anywhere else. Every other document and both caches are unchanged. |
| `Storage.UpsertIdempotent` | storage/mongo_store.go:80-85 | Repeating a successful upsert of the same data leaves the collection as the first one did. |
| `StoreAgreement.UpsertMatchesPipeline` | storage/mongo_store.go:80-85 | Give the store's upsert the payload with its `description_hash` set. It writes the collection exactly as the call `processVacancy` issues inline (main.go:426-430) does. |
| `Storage.OnlyLoadWritesIds` | storage/mongo_store.go:66-69 | After a load, no sequence of queries, hash additions and upserts changes the ID cache. `VacancyExists` therefore answers from the loaded snapshot only. The hash cache grows by exactly the hashes added. |

## Notable behaviour

The code behaves as follows in these cases, and the model does the same:

- **Empty description.** An empty `description` string is hashed and stored
  like any other (main.go:408-413). Only a missing or non-string
  `description` is non-retryable.
- **Duplicates count as saved.** A duplicate returns `nil` and so raises
  `savedCount` (main.go:416-420, 353-356).
- **Failures on page 0 are not fatal.**
  - A failed request, read or parse on page 0 just moves on. `totalPages`
    then stays 0, and the first later page that answers ends the run, whether
    it decodes or returns any status.
  - A non-200 status on page 0 ends the run without any error.
- **Store write failures are retried.** When an upsert fails, the attempt is
  retryable (main.go:430-434). The code has no "duplicate from the store"
  outcome.
- **Undecodable details are not retried.** A detail body that is not valid
  JSON is non-retryable (main.go:401-405).

## Left out

- HTTP: URL construction, the `Authorization` header and the transport are
  left out. A request either cannot be built, fails in transport, or returns
  a status and body.
- JSON decoding: a body either decodes to a value or does not. Field values
  are reduced to "string" versus "anything else", the only distinction
  `processVacancy` draws.
- The MongoDB driver: connection, `Find`, cursor decoding and whether
  `UpdateOne` succeeds are oracle inputs. The documents `Find` returns are not
  tied to the modelled collection.
- The MD5 compression function: the digest is a parameter. Only its hex
  encoding is modelled.
- Concurrency: the goroutines, the `MaxConcurrency = 10` semaphore, the
  `WaitGroup`, the `RWMutex` and `atomic.AddInt64` are left out. The keys are
  processed one after another in dispatch order. Two workers that both pass
  `Exists` before either calls `Add` would both upsert the same content; that
  interleaving is not covered.
- Waiting: `RetryDelay` sleeps and the 30-second context timeouts.
- `savedCount` is unbounded. The `int64` cannot realistically overflow here.
- Pagination.PageStep: `page`, `totalPages` and a page's `pages` are unbounded
  integers, so the end test `page >= totalPages - 1` never wraps. In Go they
  are 64-bit: if page 0 reports `pages` = `math.MinInt64`, `totalPages - 1`
  wraps to `math.MaxInt64`, and the loop goes on while pages answer. The model
  stops at page 0 there. The same holds for `DecodedPageChecksEnd` and
  `RejectedPageChecksEnd`, which state that end test.
- Repeated IDs on one page: the detail oracle is indexed by page, key and attempt.
  An ID listed twice on one page therefore gets the same responses and upsert
  outcomes on both of its runs, where Go sends each copy its own requests.
- The `resp == nil` branch of the page loop (main.go:312-317) is left out. It
  is unreachable, because `client.Do` returns a response whenever it returns
  no error.
- The "unknown error" branch of the retry loop (main.go:349-352) is left out.
  `processVacancy` only ever returns `nil`, `ErrRetryable` or
  `ErrNonRetryable`.
- Pagination.Run: the source loop has no bound, and here it runs for at most
  `fuel` page requests. What happens after `fuel` requests is not modelled.
  `PersistentFailuresNeverStop` shows that under persistent failures no
  amount of fuel is enough.
- Process.ProcessVacancy: only the detail response and the upsert outcome
  vary. The vacancy ID appears only through the oracle's index.
- Storage.UpsertVacancy: the collection holds one document per `id` value,
  where MongoDB allows several and `UpdateOne` picks the first match. A
  missing `id` and a null one are different keys, while all non-string `id`
  values share one key. A failed `UpdateOne` is taken to write nothing.
- Storage.DescriptionHashExists: calling it before the first
  `LoadExistingData` dereferences a nil `*sync.Map` and panics. The model
  requires a loaded cache instead of modelling the panic.
- Storage.AddDescriptionHash: the same nil `*sync.Map` panic before the first
  load is not modelled.
- Logging, `init`, `main`, flag and environment parsing, the `config` and
  `logger` packages, and the constructors `NewSafeMap`, `NewHHClient` and
  `NewMongoStore`. The empty caches they create are `SafeMaps.Empty` and
  `Storage.Fresh`.
- The URL constants `BaseSearchURL`, `BaseVacancyURL`, `PerPage`, `Area` and
  `ProfessionalRole`.
