/**
 * The paged-search driver `fetchAndStoreVacancies` of main.go: a state
 * machine over `page` and `totalPages` that filters already-known IDs out
 * of each page and hands the rest to `fetchVacancyDetails`. The loop has no
 * bound in the source; here it runs on `fuel` page requests.
 *
 * `fetchVacancyDetails` always returns `nil` and the loop reads nothing
 * else it changes, so the page loop's decisions do not depend on the
 * fetches. The model therefore runs the loop first, recording each
 * decoded page's keys as a `Dispatch`, and then fetches the dispatches in
 * order with the hash cache threaded through. `fetchVacancyDetails` waits
 * for all its goroutines before returning, so no fetch overlaps the next
 * page request; only the goroutines of one batch overlap, and in this
 * sequential model they run one after another in dispatch order.
 */
module Pagination {
  import opened Wrappers
  import opened Http
  import opened Hashing
  import opened SafeMaps
  import opened Retry
  import opened Process
  import Api

  /** The IDs of `ids` that are not in `existing`, in their order. */
  function FilterNew(ids: seq<string>, existing: set<string>): (r: seq<string>)
    ensures |r| <= |ids|
    ensures forall i :: 0 <= i < |r| ==> r[i] !in existing
  {
    if |ids| == 0 then []
    else (if ids[0] in existing then [] else [ids[0]]) + FilterNew(ids[1..], existing)
  }

  /**
   * Filtering drops exactly the known IDs: every ID outside `existing`
   * occurs as often as in `ids`, and no ID of `existing` occurs.
   */
  lemma {:induction false} FilterNewKeepsExactlyNew(ids: seq<string>, existing: set<string>)
    ensures forall x :: multiset(FilterNew(ids, existing))[x] == if x in existing then 0 else multiset(ids)[x]
    decreases |ids|
  {
    if |ids| > 0 {
      FilterNewKeepsExactlyNew(ids[1..], existing);
      assert ids == [ids[0]] + ids[1..];
    }
  }

  /** Filtering keeps order: it distributes over concatenation. */
  lemma {:induction false} FilterNewAppend(a: seq<string>, b: seq<string>, existing: set<string>)
    ensures FilterNew(a + b, existing) == FilterNew(a, existing) + FilterNew(b, existing)
    decreases |a|
  {
    if |a| > 0 {
      assert (a + b)[1..] == a[1..] + b;
      FilterNewAppend(a[1..], b, existing);
    } else {
      assert a + b == b;
    }
  }

  /** A page whose IDs are all known dispatches nothing. */
  lemma {:induction false} FilterNewAllKnown(ids: seq<string>, existing: set<string>)
    requires forall i :: 0 <= i < |ids| ==> ids[i] in existing
    ensures FilterNew(ids, existing) == []
    decreases |ids|
  {
    if |ids| > 0 {
      FilterNewAllKnown(ids[1..], existing);
    }
  }

  /** A page whose IDs are all new dispatches all of them, in order. */
  lemma {:induction false} FilterNewAllNew(ids: seq<string>, existing: set<string>)
    requires forall i :: 0 <= i < |ids| ==> ids[i] !in existing
    ensures FilterNew(ids, existing) == ids
    decreases |ids|
  {
    if |ids| > 0 {
      FilterNewAllNew(ids[1..], existing);
      assert ids == [ids[0]] + ids[1..];
    }
  }

  /** The keys main.go passes to the detail fetch for a decoded page: none from the snapshot. */
  function NewVacancyIds(items: seq<SearchItem>, existing: set<string>): (r: seq<string>)
    ensures |r| <= |items|
    ensures forall i :: 0 <= i < |r| ==> r[i] !in existing
  {
    FilterNew(ItemIds(items), existing)
  }

  /** A decoded page dispatches each item's ID outside the snapshot as often as the page lists it. */
  lemma NewVacancyIdsKeepsExactlyNew(items: seq<SearchItem>, existing: set<string>)
    ensures forall x :: multiset(NewVacancyIds(items, existing))[x] == if x in existing then 0 else multiset(ItemIds(items))[x]
  {
    FilterNewKeepsExactlyNew(ItemIds(items), existing);
  }

  /**
   * The world the driver runs in: the search response for each page, the
   * detail oracle for the keys dispatched from each page, the ID snapshot
   * loaded before the run (never updated during it), and the digest.
   */
  datatype Env = Env(
    search: nat -> Response<SearchResponse>,
    detail: nat -> DetailOracle,
    existing: set<string>,
    md5: string -> Digest)

  /** The keys handed to `fetchVacancyDetails` from one decoded page. */
  datatype Dispatch = Dispatch(page: nat, ids: seq<string>)

  /**
   * The loop's variables, plus a record of the pages requested and of the
   * batches dispatched so far.
   */
  datatype Driver = Driver(page: nat, totalPages: int, visited: seq<nat>, dispatched: seq<Dispatch>)

  /** One iteration: `continue` with the next state, or `break`. */
  datatype Step = Continue(next: Driver) | Break(last: Driver) {
    function State(): Driver {
      match this
      case Continue(d) => d
      case Break(d) => d
    }
  }

  /** The search page decoded successfully. */
  function Decoded(resp: Response<SearchResponse>): Option<SearchResponse> {
    if resp.Responded? && resp.status == StatusOK && resp.body.Read? then resp.body.decoded else None
  }

  /** A request, transport, body-read or decode failure: the paths that `page++; continue`. */
  predicate PageFailed(resp: Response<SearchResponse>) {
    resp.RequestError? || resp.TransportError?
    || (resp.Responded? && resp.status == StatusOK && Decoded(resp).None?)
  }

  /** The response carried a status other than 200. */
  predicate Rejected(resp: Response<SearchResponse>) {
    resp.Responded? && resp.status != StatusOK
  }

  /**
   * One iteration of the `for` loop: the current page is requested, and
   * the loop either breaks on it or moves on to the next page. A decoded
   * page dispatches its new IDs; what the fetch of those does never feeds
   * back into the loop, since `fetchVacancyDetails` always returns `nil`.
   */
  function PageStep(env: Env, d: Driver): (s: Step)
    ensures s.State().visited == d.visited + [d.page]
    ensures s.Continue? ==> s.next.page == d.page + 1
    ensures s.Break? ==> s.last.page == d.page
  {
    var here := d.(visited := d.visited + [d.page]);
    match env.search(d.page)
    case RequestError => Continue(here.(page := d.page + 1))
    case TransportError => Continue(here.(page := d.page + 1))
    case Responded(status, body) =>
      if status == StatusOK then
        match body
        case ReadError => Continue(here.(page := d.page + 1))
        case Read(None) => Continue(here.(page := d.page + 1))
        case Read(Some(resp)) =>
          var total := if d.page == 0 then resp.pages else d.totalPages;
          var batch := Dispatch(d.page, NewVacancyIds(resp.items, env.existing));
          var done := here.(totalPages := total, dispatched := d.dispatched + [batch]);
          if d.page >= total - 1 then Break(done) else Continue(done.(page := d.page + 1))
      else
        // 400, 403 and 404 are logged apart from other statuses; both branches then do the same.
        if d.page >= d.totalPages - 1 then Break(here) else Continue(here.(page := d.page + 1))
  }

  /** `totalPages` is set only from a decoded page 0, to the page count it reports. */
  lemma TotalPagesOnlyFromFirstPage(env: Env, d: Driver)
    ensures PageStep(env, d).State().totalPages ==
      if d.page == 0 && Decoded(env.search(0)).Some? then Decoded(env.search(0)).value.pages else d.totalPages
  {
  }

  /** A failed request, read or decode moves to `page + 1` with no termination check and changes nothing else. */
  lemma FailedPageAdvances(env: Env, d: Driver)
    requires PageFailed(env.search(d.page))
    ensures PageStep(env, d) == Continue(d.(page := d.page + 1, visited := d.visited + [d.page]))
  {
  }

  /**
   * A non-200 status breaks iff `page >= totalPages - 1` and otherwise moves
   * to `page + 1`; nothing else changes, and nothing is dispatched.
   */
  lemma RejectedPageChecksEnd(env: Env, d: Driver)
    requires Rejected(env.search(d.page))
    ensures PageStep(env, d).Break? <==> d.page >= d.totalPages - 1
    ensures PageStep(env, d).State() == d.(page := PageStep(env, d).State().page, visited := d.visited + [d.page])
  {
  }

  /**
   * After a decoded page the driver breaks iff `page >= totalPages - 1`,
   * counting the page count just learnt, and it has dispatched exactly the
   * page's IDs outside the snapshot, in page order.
   */
  lemma DecodedPageChecksEnd(env: Env, d: Driver)
    requires Decoded(env.search(d.page)).Some?
    ensures PageStep(env, d).Break? <==> d.page >= PageStep(env, d).State().totalPages - 1
    ensures PageStep(env, d).State().dispatched ==
      d.dispatched + [Dispatch(d.page, NewVacancyIds(Decoded(env.search(d.page)).value.items, env.existing))]
  {
  }

  /**
   * One search exchange as the driver and the stand-alone client see it:
   * the same request outcome, status and body read, and a body the
   * driver's wider `SearchResponse` accepts is one the client's `IdPage`
   * accepts too, with the same `pages` and items.
   */
  predicate SameExchange(driver: Response<SearchResponse>, client: Response<IdPage>) {
    && (driver.RequestError? <==> client.RequestError?)
    && (driver.TransportError? <==> client.TransportError?)
    && (driver.Responded? ==>
          && client.Responded? && client.status == driver.status
          && (driver.body.ReadError? <==> client.body.ReadError?))
    && (Decoded(driver).Some? ==>
          client.Responded? && client.body.Read? && client.body.decoded == Some(IdPage(Decoded(driver).value.pages, Decoded(driver).value.items)))
  }

  /**
   * The stand-alone client's `GetVacancyIDs` (api/main.go) on a page the
   * driver decodes succeeds with the same page count, and filtering its
   * IDs against the snapshot gives the keys the driver dispatches. The
   * converse fails only on a 200 body that the client's narrower struct
   * accepts and the driver's rejects.
   */
  lemma SearchClientAgreesWithDriver(driver: Response<SearchResponse>, client: Response<IdPage>, existing: set<string>)
    requires SameExchange(driver, client)
    ensures Decoded(driver).Some? ==>
      && Api.GetVacancyIDs(client).Success?
      && Api.GetVacancyIDs(client).value.1 == Decoded(driver).value.pages
      && FilterNew(Api.GetVacancyIDs(client).value.0, existing) == NewVacancyIds(Decoded(driver).value.items, existing)
    ensures Api.GetVacancyIDs(client).Success? && Decoded(driver).None? ==>
      driver.Responded? && driver.status == StatusOK && driver.body == Read(None)
  {
    if Decoded(driver).Some? {
      assert Api.GetVacancyIDs(client).value.0 == ItemIds(Decoded(driver).value.items);
    }
  }

  /**
   * The converse does not hold: a 200 page whose `found` is not a number
   * fails the driver's decode (a failed page, `page++`) while the client
   * returns its `pages` and no IDs.
   */
  lemma ClientAcceptsPageDriverRejects()
    ensures var driver: Response<SearchResponse> := Responded(StatusOK, Read(None));
      var client := Responded(StatusOK, Read(Some(IdPage(2, []))));
      && SameExchange(driver, client)
      && PageFailed(driver)
      && Api.GetVacancyIDs(client) == Success(([], 2))
  {
  }

  /** The pages `from`, `from + 1`, …, `from + n - 1`. */
  function Pages(from: nat, n: nat): (ps: seq<nat>)
    ensures |ps| == n
    decreases n
  {
    if n == 0 then [] else [from] + Pages(from + 1, n - 1)
  }

  /** The driver broke out of the loop, or was stopped after `fuel` page requests. */
  datatype Outcome = Finished(driver: Driver) | OutOfFuel(driver: Driver)

  /**
   * The loop run for at most `fuel` iterations. The pages requested are
   * consecutive from the current page, and the run ends on the page it
   * last requested.
   */
  function Run(env: Env, d: Driver, fuel: nat): (r: Outcome)
    ensures var n := |r.driver.visited| - |d.visited|;
      && |d.visited| <= |r.driver.visited|
      && r.driver.visited == d.visited + Pages(d.page, n)
      && (r.OutOfFuel? ==> n == fuel && r.driver.page == d.page + fuel)
      && (r.Finished? ==> 1 <= n <= fuel && r.driver.page == d.page + n - 1)
    decreases fuel
  {
    if fuel == 0 then OutOfFuel(d)
    else
      match PageStep(env, d)
      case Break(last) => Finished(last)
      case Continue(next) =>
        var r := Run(env, next, fuel - 1);
        VisitedExtends(d.visited, d.page, Pages(d.page + 1, |r.driver.visited| - |next.visited|));
        r
  }

  /** Requesting `page` and then the pages from `page + 1` is requesting the pages from `page`. */
  lemma VisitedExtends(before: seq<nat>, page: nat, rest: seq<nat>)
    requires rest == Pages(page + 1, |rest|)
    ensures (before + [page]) + rest == before + Pages(page, |rest| + 1)
  {
    assert Pages(page, |rest| + 1) == [page] + rest;
  }

  /** One iteration of a run that still has fuel. */
  lemma RunUnfolds(env: Env, d: Driver, fuel: nat)
    requires fuel > 0
    ensures PageStep(env, d).Break? ==> Run(env, d, fuel) == Finished(PageStep(env, d).last)
    ensures PageStep(env, d).Continue? ==> Run(env, d, fuel) == Run(env, PageStep(env, d).next, fuel - 1)
  {
  }

  /** Every key of every batch lies outside `existing`. */
  predicate AllNew(ds: seq<Dispatch>, existing: set<string>) {
    forall i, k :: 0 <= i < |ds| && 0 <= k < |ds[i].ids| ==> ds[i].ids[k] !in existing
  }

  /** One step only appends to the dispatch record, and only keys outside the snapshot. */
  lemma StepDispatchesOnlyNew(env: Env, d: Driver)
    requires AllNew(d.dispatched, env.existing)
    ensures d.dispatched <= PageStep(env, d).State().dispatched
    ensures AllNew(PageStep(env, d).State().dispatched, env.existing)
  {
    var ds := PageStep(env, d).State().dispatched;
    if Decoded(env.search(d.page)).Some? {
      DecodedPageChecksEnd(env, d);
      forall i, k | 0 <= i < |ds| && 0 <= k < |ds[i].ids|
        ensures ds[i].ids[k] !in env.existing
      {
        if i < |d.dispatched| {
          assert ds[i] == d.dispatched[i];
        }
      }
    }
  }

  /** Over a whole run the dispatch record only grows, and only by keys outside the snapshot. */
  lemma {:induction false} RunDispatchesOnlyNew(env: Env, d: Driver, fuel: nat)
    requires AllNew(d.dispatched, env.existing)
    ensures d.dispatched <= Run(env, d, fuel).driver.dispatched
    ensures AllNew(Run(env, d, fuel).driver.dispatched, env.existing)
    decreases fuel
  {
    if fuel > 0 {
      StepDispatchesOnlyNew(env, d);
      RunUnfolds(env, d, fuel);
      var s := PageStep(env, d);
      if s.Continue? {
        RunDispatchesOnlyNew(env, s.next, fuel - 1);
      }
    }
  }

  /** Every key of the batches, in dispatch order. */
  function Keys(ds: seq<Dispatch>): seq<string> {
    if |ds| == 0 then [] else ds[0].ids + Keys(ds[1..])
  }

  /** The detail oracle each key of the batches is fetched against: its page's. */
  function KeyOracles(env: Env, ds: seq<Dispatch>): (os: seq<DetailOracle>)
    ensures |os| == |Keys(ds)|
  {
    if |ds| == 0 then [] else Repeat(env.detail(ds[0].page), |ds[0].ids|) + KeyOracles(env, ds[1..])
  }

  /** What the detail fetches of a run add up to. */
  datatype Report = Report(runs: seq<KeyRun>, hashes: SafeMap, saved: nat)

  /**
   * The batches fetched one after another, the hash cache threaded through
   * them: run `i` is the retry loop of dispatched key `i` against its page's
   * detail oracle, from the cache the keys before it (in this batch and the
   * earlier ones) left; `saved` counts the keys that ended in `nil`; the
   * cache grows by exactly the hashes added, none known before and no two
   * alike, so in the sequential model each content is stored at most once
   * per run.
   */
  function Ingest(env: Env, hashes: SafeMap, ds: seq<Dispatch>): (r: Report)
    ensures EachKeyRun(KeyOracles(env, ds), env.md5, hashes, Keys(ds), r.runs)
    ensures r.hashes == CacheBefore(hashes, r.runs, |r.runs|)
    ensures |r.runs| == |Keys(ds)|
    ensures r.saved == CountNil(r.runs)
    ensures r.hashes.internal == hashes.internal + AddedHashes(r.runs)
    ensures AddedHashes(r.runs) !! hashes.internal
    ensures AddedDistinct(r.runs)
    decreases |ds|
  {
    if |ds| == 0 then Report([], hashes, 0)
    else
      var batch := FetchVacancyDetails(env.detail(ds[0].page), env.md5, hashes, ds[0].ids);
      var rest := Ingest(env, batch.hashes, ds[1..]);
      IngestCons(env, hashes, ds, batch, rest);
      Report(batch.runs + rest.runs, rest.hashes, batch.saved + rest.saved)
  }

  /** The first batch followed by the rest, run from the cache it left, is the whole ingest. */
  lemma IngestCons(env: Env, hashes: SafeMap, ds: seq<Dispatch>, batch: Batch, rest: Report)
    requires |ds| > 0
    requires EachKeyRun(Repeat(env.detail(ds[0].page), |ds[0].ids|), env.md5, hashes, ds[0].ids, batch.runs)
    requires batch.hashes == CacheBefore(hashes, batch.runs, |batch.runs|)
    requires batch.saved == CountNil(batch.runs)
    requires batch.hashes.internal == hashes.internal + AddedHashes(batch.runs)
    requires AddedHashes(batch.runs) !! hashes.internal
    requires AddedDistinct(batch.runs)
    requires EachKeyRun(KeyOracles(env, ds[1..]), env.md5, batch.hashes, Keys(ds[1..]), rest.runs)
    requires rest.hashes == CacheBefore(batch.hashes, rest.runs, |rest.runs|)
    requires rest.saved == CountNil(rest.runs)
    requires rest.hashes.internal == batch.hashes.internal + AddedHashes(rest.runs)
    requires AddedHashes(rest.runs) !! batch.hashes.internal
    requires AddedDistinct(rest.runs)
    ensures var runs := batch.runs + rest.runs;
      && EachKeyRun(KeyOracles(env, ds), env.md5, hashes, Keys(ds), runs)
      && rest.hashes == CacheBefore(hashes, runs, |runs|)
      && |runs| == |Keys(ds)|
      && batch.saved + rest.saved == CountNil(runs)
      && rest.hashes.internal == hashes.internal + AddedHashes(runs)
      && AddedHashes(runs) !! hashes.internal
      && AddedDistinct(runs)
  {
    var runs := batch.runs + rest.runs;
    assert Keys(ds) == ds[0].ids + Keys(ds[1..]);
    EachKeyRunAppend(Repeat(env.detail(ds[0].page), |ds[0].ids|), KeyOracles(env, ds[1..]), env.md5, hashes,
                     ds[0].ids, Keys(ds[1..]), batch.runs, rest.runs);
    CountNilAppend(batch.runs, rest.runs);
    AddedHashesAppend(batch.runs, rest.runs);
    AddedDistinctAppend(batch.runs, rest.runs);
  }

  /** The state before the first iteration: `page := 0`, `totalPages` zero. */
  const Start := Driver(0, 0, [], [])

  /** A whole run: where the page loop ended, what it fetched, and the final cache and `savedCount`. */
  datatype Ingestion = Ingestion(outcome: Outcome, runs: seq<KeyRun>, hashes: SafeMap, savedCount: nat)

  /**
   * `fetchAndStoreVacancies`, run for at most `fuel` page requests: the
   * pages requested are 0, 1, 2, … in order; only keys outside the ID
   * snapshot are fetched, each by the retry loop against its page's detail
   * oracle from the cache the keys before it left; `savedCount` rises by
   * one per key whose last attempt returned `nil`; and the cache grows by
   * distinct, previously unknown hashes only.
   */
  function FetchAndStoreVacancies(env: Env, hashes: SafeMap, savedCount: nat, fuel: nat): (r: Ingestion)
    ensures r.outcome.driver.visited == Pages(0, |r.outcome.driver.visited|)
    ensures r.outcome.Finished? ==> 1 <= |r.outcome.driver.visited| <= fuel && r.outcome.driver.page == |r.outcome.driver.visited| - 1
    ensures r.outcome.OutOfFuel? ==> |r.outcome.driver.visited| == fuel
    ensures AllNew(r.outcome.driver.dispatched, env.existing)
    ensures EachKeyRun(KeyOracles(env, r.outcome.driver.dispatched), env.md5, hashes, Keys(r.outcome.driver.dispatched), r.runs)
    ensures r.hashes == CacheBefore(hashes, r.runs, |r.runs|)
    ensures |r.runs| == |Keys(r.outcome.driver.dispatched)|
    ensures r.savedCount == savedCount + CountNil(r.runs)
    ensures r.hashes.internal == hashes.internal + AddedHashes(r.runs)
    ensures AddedHashes(r.runs) !! hashes.internal
    ensures AddedDistinct(r.runs)
  {
    var outcome := Run(env, Start, fuel);
    assert outcome.driver.visited == Pages(0, |outcome.driver.visited|) by {
      assert [] + Pages(0, |outcome.driver.visited|) == Pages(0, |outcome.driver.visited|);
    }
    RunDispatchesOnlyNew(env, Start, fuel);
    var report := Ingest(env, hashes, outcome.driver.dispatched);
    Ingestion(outcome, report.runs, report.hashes, savedCount + report.saved)
  }

  /** Every page request decodes. */
  ghost predicate AllPagesDecode(env: Env) {
    forall p :: Decoded(env.search(p)).Some?
  }

  /** From a page `p >= 1` below `totalPages`, the run goes on to the last page and stops there. */
  lemma {:induction false} DecodedPagesRunToTheLast(env: Env, d: Driver, fuel: nat)
    requires AllPagesDecode(env)
    requires 1 <= d.page <= d.totalPages - 1
    requires fuel >= d.totalPages - d.page
    ensures Run(env, d, fuel).Finished?
    ensures Run(env, d, fuel).driver.page == d.totalPages - 1
    decreases d.totalPages - d.page
  {
    var s := PageStep(env, d);
    TotalPagesOnlyFromFirstPage(env, d);
    DecodedPageChecksEnd(env, d);
    RunUnfolds(env, d, fuel);
    if d.page < d.totalPages - 1 {
      DecodedPagesRunToTheLast(env, s.next, fuel - 1);
    }
  }

  /**
   * When every page decodes and page 0 reports `n` pages, the run requests
   * pages 0 … n-1 exactly once each, in order, and stops (page 0 alone when
   * `n <= 1`).
   */
  lemma AllDecodedVisitsEveryPage(env: Env, n: int, fuel: nat)
    requires AllPagesDecode(env)
    requires Decoded(env.search(0)).value.pages == n
    requires fuel >= 1 && fuel >= n
    ensures Run(env, Start, fuel).Finished?
    ensures Run(env, Start, fuel).driver.visited == Pages(0, if n <= 1 then 1 else n)
  {
    var d := Start;
    assert Decoded(env.search(d.page)).Some?;
    var s := PageStep(env, d);
    TotalPagesOnlyFromFirstPage(env, d);
    DecodedPageChecksEnd(env, d);
    RunUnfolds(env, d, fuel);
    var r := Run(env, d, fuel);
    assert s.State().totalPages == n;
    if n > 1 {
      var next := s.next;
      assert next.page == 1 && next.totalPages == n;
      DecodedPagesRunToTheLast(env, next, fuel - 1);
      assert r == Run(env, next, fuel - 1);
    } else {
      assert r == Finished(s.last);
    }
    var count := if n <= 1 then 1 else n;
    assert r.Finished? && r.driver.page == count - 1;
    assert |r.driver.visited| == count;
  }

  /** With three pages that all decode, the driver requests 0, 1 and 2, then stops. */
  lemma ThreePagesVisitedInOrder(env: Env, hashes: SafeMap, savedCount: nat)
    requires AllPagesDecode(env)
    requires Decoded(env.search(0)).value.pages == 3
    ensures FetchAndStoreVacancies(env, hashes, savedCount, 3).outcome.Finished?
    ensures FetchAndStoreVacancies(env, hashes, savedCount, 3).outcome.driver.visited == [0, 1, 2]
  {
    AllDecodedVisitsEveryPage(env, 3, 3);
    assert Pages(0, 3) == [0, 1, 2];
  }

  /**
   * A non-200 status on page 0 ends the run at once, since `totalPages` is
   * still 0 and `0 >= -1`; nothing is fetched or saved.
   */
  lemma RejectedFirstPageStops(env: Env, hashes: SafeMap, savedCount: nat, fuel: nat)
    requires Rejected(env.search(0))
    requires fuel >= 1
    ensures var r := FetchAndStoreVacancies(env, hashes, savedCount, fuel);
      && r.outcome.Finished? && r.outcome.driver.visited == [0]
      && r.runs == [] && r.savedCount == savedCount && r.hashes == hashes
  {
    RejectedPageChecksEnd(env, Start);
    RunUnfolds(env, Start, fuel);
  }

  /**
   * When every request fails before a page decodes, the driver keeps
   * advancing `page` and never stops: whatever the fuel, it runs out,
   * having requested pages 0 … fuel-1 and never learnt `totalPages`.
   */
  lemma {:induction false} PersistentFailuresNeverStop(env: Env, d: Driver, fuel: nat)
    requires forall p :: PageFailed(env.search(p))
    ensures Run(env, d, fuel).OutOfFuel?
    ensures Run(env, d, fuel).driver.totalPages == d.totalPages
    decreases fuel
  {
    if fuel > 0 {
      PersistentFailuresNeverStop(env, PageStep(env, d).next, fuel - 1);
    }
  }

  /**
   * From a page with `totalPages` still zero, failed pages up to `p` are
   * skipped and the first page that answers (decoded, or any other status)
   * ends the loop there: `totalPages` never left zero, so the end check
   * passes; only that page, when decoded, dispatches.
   */
  lemma {:induction false} FailedPagesThenAnswer(env: Env, d: Driver, p: nat, fuel: nat)
    requires d.totalPages == 0 && d.page <= p && 1 <= p
    requires forall q :: d.page <= q < p ==> PageFailed(env.search(q))
    requires !PageFailed(env.search(p))
    requires fuel > p - d.page
    ensures var r := Run(env, d, fuel);
      && r.Finished? && r.driver.page == p && r.driver.totalPages == 0
      && r.driver.dispatched == d.dispatched +
           (if Decoded(env.search(p)).Some? then [Dispatch(p, NewVacancyIds(Decoded(env.search(p)).value.items, env.existing))] else [])
    decreases p - d.page
  {
    RunUnfolds(env, d, fuel);
    if d.page < p {
      FailedPageAdvances(env, d);
      FailedPagesThenAnswer(env, PageStep(env, d).next, p, fuel - 1);
    } else if Decoded(env.search(p)).Some? {
      DecodedPageChecksEnd(env, d);
    } else {
      RejectedPageChecksEnd(env, d);
    }
  }

  /**
   * Failed requests on pages 0 to `p - 1` never learn `totalPages`, so the
   * loop runs on to page `p` and, whatever page `p` answers, stops there;
   * the only batch is page `p`'s, if it decoded.
   */
  lemma FailedPagesEndAtNextAnsweredPage(env: Env, p: nat, fuel: nat)
    requires 1 <= p
    requires forall q :: 0 <= q < p ==> PageFailed(env.search(q))
    requires !PageFailed(env.search(p))
    requires fuel > p
    ensures var r := Run(env, Start, fuel);
      && r.Finished? && r.driver.visited == Pages(0, p + 1) && r.driver.totalPages == 0
      && r.driver.dispatched ==
           (if Decoded(env.search(p)).Some? then [Dispatch(p, NewVacancyIds(Decoded(env.search(p)).value.items, env.existing))] else [])
  {
    FailedPagesThenAnswer(env, Start, p, fuel);
    var r := Run(env, Start, fuel);
    assert r.driver.visited == [] + Pages(0, p + 1);
    assert [] + Pages(0, p + 1) == Pages(0, p + 1);
  }


  /** Two decoded pages, page 0 reporting two pages, each with one new item: both are dispatched, in order. */
  lemma TwoDecodedPagesDispatch(env: Env, a: string, b: string)
    requires Decoded(env.search(0)).Some? && Decoded(env.search(0)).value.pages == 2
    requires Decoded(env.search(0)).value.items == [SearchItem(a)]
    requires Decoded(env.search(1)).Some? && Decoded(env.search(1)).value.items == [SearchItem(b)]
    requires a !in env.existing && b !in env.existing
    ensures Run(env, Start, 2) == Finished(Driver(1, 2, [0, 1], [Dispatch(0, [a]), Dispatch(1, [b])]))
  {
    FilterNewAllNew([a], env.existing);
    FilterNewAllNew([b], env.existing);
    assert ItemIds([SearchItem(a)]) == [a] && ItemIds([SearchItem(b)]) == [b];
    var s := PageStep(env, Start);
    assert s == Continue(Driver(1, 2, [0], [Dispatch(0, [a])]));
    var t := PageStep(env, s.next);
    assert t == Break(Driver(1, 2, [0, 1], [Dispatch(0, [a]), Dispatch(1, [b])]));
  }
}
