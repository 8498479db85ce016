/**
 * The per-key retry loop and the batch driver of `fetchVacancyDetails` in
 * main.go. Goroutines, the semaphore and the sleep are not modelled: the
 * keys of a batch run one after another, in order, over one hash cache.
 */
module Retry {
  import opened Wrappers
  import opened Hashing
  import opened SafeMaps
  import opened Process

  /** `MaxRetries`: retries after the first attempt. */
  const MaxRetries: nat := 3

  /** What attempt number `a` (from 0) for key `k` sees. */
  type DetailOracle = (string, nat) -> Exchange

  /**
   * One key's loop: how many attempts it made, the verdict of the last,
   * the hash cache afterwards and the hash it added (`Some` only when stored).
   */
  datatype KeyRun = KeyRun(attempts: nat, final: Verdict, hashes: SafeMap, added: Option<string>)

  /** The verdict attempt `a` of key `k` would get against the cache `hashes`. */
  function VerdictAt(oracle: DetailOracle, md5: string -> Digest, hashes: SafeMap, k: string, a: nat): Verdict {
    ProcessVacancy(oracle(k, a), hashes, md5).verdict
  }

  /** Attempts `from` up to, but not including, `to` of key `k` are all retryable. */
  predicate RetryableFrom(oracle: DetailOracle, md5: string -> Digest, hashes: SafeMap, k: string, from: nat, to: nat)
    decreases to - from
  {
    from >= to || (VerdictAt(oracle, md5, hashes, k, from) == Retryable && RetryableFrom(oracle, md5, hashes, k, from + 1, to))
  }

  /**
   * The `for { … }` loop of one goroutine, entered with `retries` retries
   * already spent. It stops at the first attempt that is not retryable, or
   * after the attempt made with `retries == MaxRetries`: at most
   * `MaxRetries + 1` attempts in all. The cache changes only when the last
   * attempt stored, by exactly that attempt's hash, which was not yet known.
   */
  function RetryLoop(oracle: DetailOracle, md5: string -> Digest, hashes: SafeMap, k: string, retries: nat): (r: KeyRun)
    requires retries <= MaxRetries
    ensures retries < r.attempts <= MaxRetries + 1
    ensures RetryableFrom(oracle, md5, hashes, k, retries, r.attempts - 1)
    ensures r.final == VerdictAt(oracle, md5, hashes, k, r.attempts - 1)
    ensures r.final == Retryable ==> r.attempts == MaxRetries + 1
    ensures r.added.Some? <==> r.final == Stored
    ensures r.added.Some? ==> !hashes.Exists(r.added.value) && r.hashes == hashes.Add(r.added.value)
    ensures r.added.Some? ==>
      var d := Description(oracle(k, r.attempts - 1).response);
      d.Some? && r.added.value == MD5Hash(md5, d.value)
    ensures r.added.None? ==> r.hashes == hashes
    decreases MaxRetries - retries
  {
    var attempt := ProcessVacancy(oracle(k, retries), hashes, md5);
    assert VerdictAt(oracle, md5, hashes, k, retries) == attempt.verdict;
    match attempt.verdict
    case Retryable =>
      assert attempt.hashes == hashes;
      if retries < MaxRetries then
        RetryLoop(oracle, md5, hashes, k, retries + 1)
      else KeyRun(retries + 1, Retryable, hashes, None)
    case Stored =>
      var description := Description(oracle(k, retries).response);
      assert description.Some?;
      var h := MD5Hash(md5, description.value);
      assert !hashes.Exists(h) && attempt.hashes == hashes.Add(h);
      KeyRun(retries + 1, Stored, attempt.hashes, Some(h))
    case _ => KeyRun(retries + 1, attempt.verdict, attempt.hashes, None)
  }

  /**
   * The whole goroutine for key `k`: one to four attempts, every one but
   * the last retryable, a retryable last one only when all four were spent;
   * the cache gains the stored description's hash and nothing else.
   */
  function RunKey(oracle: DetailOracle, md5: string -> Digest, hashes: SafeMap, k: string): (r: KeyRun)
    ensures 1 <= r.attempts <= MaxRetries + 1
    ensures RetryableFrom(oracle, md5, hashes, k, 0, r.attempts - 1)
    ensures r.final == VerdictAt(oracle, md5, hashes, k, r.attempts - 1)
    ensures r.final == Retryable ==> r.attempts == MaxRetries + 1
    ensures r.added.Some? <==> r.final == Stored
    ensures r.added.Some? ==> !hashes.Exists(r.added.value) && r.hashes == hashes.Add(r.added.value)
    ensures r.added.Some? ==>
      var d := Description(oracle(k, r.attempts - 1).response);
      d.Some? && r.added.value == MD5Hash(md5, d.value)
    ensures r.added.None? ==> r.hashes == hashes
  {
    RetryLoop(oracle, md5, hashes, k, 0)
  }

  /** Every key of a batch, in order, the cache threaded from one to the next. */
  datatype Batch = Batch(runs: seq<KeyRun>, hashes: SafeMap, saved: nat)

  /** How many runs ended in `nil` (stored or skipped as duplicate). */
  function CountNil(runs: seq<KeyRun>): nat {
    if |runs| == 0 then 0 else (if runs[0].final.IsNil() then 1 else 0) + CountNil(runs[1..])
  }

  /** The hashes the runs added. */
  function AddedHashes(runs: seq<KeyRun>): set<string> {
    if |runs| == 0 then {}
    else (if runs[0].added.Some? then {runs[0].added.value} else {}) + AddedHashes(runs[1..])
  }

  /** No two runs added the same hash. */
  predicate AddedDistinct(runs: seq<KeyRun>) {
    forall i, j :: 0 <= i < j < |runs| && runs[i].added.Some? && runs[j].added.Some? ==>
      runs[i].added.value != runs[j].added.value
  }

  /** `n` copies of `x`. */
  function Repeat<T>(x: T, n: nat): (r: seq<T>)
    ensures |r| == n
    ensures forall i :: 0 <= i < n ==> r[i] == x
  {
    if n == 0 then [] else [x] + Repeat(x, n - 1)
  }

  /** The cache run `i` of `runs` starts from: `hashes` for the first, else what run `i - 1` left. */
  function CacheBefore(hashes: SafeMap, runs: seq<KeyRun>, i: nat): SafeMap
    requires i <= |runs|
  {
    if i == 0 then hashes else runs[i - 1].hashes
  }

  /**
   * `runs` are what `run` gives for `keys`, in order, starting from
   * `hashes`: the first for the first key against its oracle, and the rest
   * from the cache it left.
   */
  predicate Chained(run: (DetailOracle, SafeMap, string) -> KeyRun, oracles: seq<DetailOracle>, hashes: SafeMap, keys: seq<string>, runs: seq<KeyRun>)
    decreases |runs|
  {
    && |oracles| == |keys| == |runs|
    && (|runs| == 0 ||
        (&& runs[0] == run(oracles[0], hashes, keys[0])
         && Chained(run, oracles[1..], runs[0].hashes, keys[1..], runs[1..])))
  }

  /** Pointwise reading: run `i` comes from key `i` and the cache run `i - 1` left. */
  lemma {:induction false} ChainedAt(run: (DetailOracle, SafeMap, string) -> KeyRun, oracles: seq<DetailOracle>, hashes: SafeMap, keys: seq<string>, runs: seq<KeyRun>, i: nat)
    requires Chained(run, oracles, hashes, keys, runs)
    requires i < |runs|
    ensures runs[i] == run(oracles[i], CacheBefore(hashes, runs, i), keys[i])
    decreases i
  {
    if i > 0 {
      ChainedAt(run, oracles[1..], runs[0].hashes, keys[1..], runs[1..], i - 1);
      assert CacheBefore(runs[0].hashes, runs[1..], i - 1) == CacheBefore(hashes, runs, i);
    }
  }

  /** A run from `hashes`, then a chain from the cache it left, is a chain. */
  lemma ChainedCons(run: (DetailOracle, SafeMap, string) -> KeyRun, oracles: seq<DetailOracle>, hashes: SafeMap, keys: seq<string>, first: KeyRun, rest: seq<KeyRun>)
    requires |oracles| == |keys| > 0 && first == run(oracles[0], hashes, keys[0])
    requires Chained(run, oracles[1..], first.hashes, keys[1..], rest)
    ensures Chained(run, oracles, hashes, keys, [first] + rest)
    ensures CacheBefore(first.hashes, rest, |rest|) == CacheBefore(hashes, [first] + rest, |rest| + 1)
  {
    assert ([first] + rest)[1..] == rest;
  }

  /** `ChainedCons` for a batch whose keys all share one oracle. */
  lemma ChainedConsRepeat(run: (DetailOracle, SafeMap, string) -> KeyRun, oracle: DetailOracle, hashes: SafeMap, ids: seq<string>, first: KeyRun, rest: seq<KeyRun>)
    requires |ids| > 0 && first == run(oracle, hashes, ids[0])
    requires Chained(run, Repeat(oracle, |ids[1..]|), first.hashes, ids[1..], rest)
    ensures Chained(run, Repeat(oracle, |ids|), hashes, ids, [first] + rest)
    ensures CacheBefore(first.hashes, rest, |rest|) == CacheBefore(hashes, [first] + rest, |rest| + 1)
  {
    assert Repeat(oracle, |ids|)[1..] == Repeat(oracle, |ids[1..]|);
    ChainedCons(run, Repeat(oracle, |ids|), hashes, ids, first, rest);
  }

  /** The cache after two stretches of runs is the cache the second left, started from the first's. */
  lemma CacheBeforeAppend(hashes: SafeMap, r1: seq<KeyRun>, r2: seq<KeyRun>)
    ensures CacheBefore(hashes, r1 + r2, |r1 + r2|) == CacheBefore(CacheBefore(hashes, r1, |r1|), r2, |r2|)
  {
  }

  /** Two stretches of keys, the second started from the cache the first left, chain as one. */
  lemma {:induction false} ChainedAppend(run: (DetailOracle, SafeMap, string) -> KeyRun, o1: seq<DetailOracle>, o2: seq<DetailOracle>,
                                         hashes: SafeMap, mid: SafeMap, k1: seq<string>, k2: seq<string>, r1: seq<KeyRun>, r2: seq<KeyRun>)
    requires Chained(run, o1, hashes, k1, r1) && mid == CacheBefore(hashes, r1, |r1|)
    requires Chained(run, o2, mid, k2, r2)
    ensures Chained(run, o1 + o2, hashes, k1 + k2, r1 + r2)
    decreases |r1|
  {
    if |r1| == 0 {
      assert o1 + o2 == o2 && k1 + k2 == k2 && r1 + r2 == r2;
    } else {
      var next := r1[0].hashes;
      assert mid == CacheBefore(next, r1[1..], |r1| - 1);
      ChainedAppend(run, o1[1..], o2, next, mid, k1[1..], k2, r1[1..], r2);
      assert (o1 + o2)[1..] == o1[1..] + o2;
      assert (k1 + k2)[1..] == k1[1..] + k2;
      assert (r1 + r2)[1..] == r1[1..] + r2;
    }
  }

  /** The runs of `keys` are their retry loops, each from the cache the one before left. */
  predicate EachKeyRun(oracles: seq<DetailOracle>, md5: string -> Digest, hashes: SafeMap, keys: seq<string>, runs: seq<KeyRun>) {
    Chained((o, h, k) => RunKey(o, md5, h, k), oracles, hashes, keys, runs)
  }

  /** Run `i` of a batch is the retry loop of key `i` from the cache run `i - 1` left. */
  lemma EachKeyRunAt(oracles: seq<DetailOracle>, md5: string -> Digest, hashes: SafeMap, keys: seq<string>, runs: seq<KeyRun>, i: nat)
    requires EachKeyRun(oracles, md5, hashes, keys, runs)
    requires i < |runs|
    ensures runs[i] == RunKey(oracles[i], md5, CacheBefore(hashes, runs, i), keys[i])
  {
    ChainedAt((o, h, k) => RunKey(o, md5, h, k), oracles, hashes, keys, runs, i);
  }

  /** Two batches, the second run from the cache the first left, are one batch. */
  lemma EachKeyRunAppend(o1: seq<DetailOracle>, o2: seq<DetailOracle>, md5: string -> Digest, hashes: SafeMap,
                         k1: seq<string>, k2: seq<string>, r1: seq<KeyRun>, r2: seq<KeyRun>)
    requires EachKeyRun(o1, md5, hashes, k1, r1)
    requires EachKeyRun(o2, md5, CacheBefore(hashes, r1, |r1|), k2, r2)
    ensures EachKeyRun(o1 + o2, md5, hashes, k1 + k2, r1 + r2)
    ensures CacheBefore(hashes, r1 + r2, |r1 + r2|) == CacheBefore(CacheBefore(hashes, r1, |r1|), r2, |r2|)
  {
    ChainedAppend((o, h, k) => RunKey(o, md5, h, k), o1, o2, hashes, CacheBefore(hashes, r1, |r1|), k1, k2, r1, r2);
    CacheBeforeAppend(hashes, r1, r2);
  }

  /** A chain of two keys sharing one oracle: the second runs from the cache the first left. */
  lemma ChainedPair(run: (DetailOracle, SafeMap, string) -> KeyRun, oracle: DetailOracle, hashes: SafeMap, k1: string, k2: string, runs: seq<KeyRun>)
    requires Chained(run, Repeat(oracle, 2), hashes, [k1, k2], runs)
    ensures |runs| == 2
    ensures runs[0] == run(oracle, hashes, k1)
    ensures runs[1] == run(oracle, runs[0].hashes, k2)
  {
    assert [k1, k2][1..] == [k2];
    assert Repeat(oracle, 2)[1..] == [oracle];
  }

  /** The cache a two-run batch leaves is the second run's, and it saved one per run that ended in `nil`. */
  lemma PairTotals(hashes: SafeMap, b: Batch)
    requires |b.runs| == 2
    requires b.hashes == CacheBefore(hashes, b.runs, |b.runs|) && b.saved == CountNil(b.runs)
    ensures b.hashes == b.runs[1].hashes
    ensures b.saved == (if b.runs[0].final.IsNil() then 1 else 0) + (if b.runs[1].final.IsNil() then 1 else 0)
  {
    assert CountNil(b.runs[1..][1..]) == 0;
    assert CountNil(b.runs[1..]) == (if b.runs[1].final.IsNil() then 1 else 0);
  }

  /** `ChainedPair` for the retry loops of a two-key batch. */
  lemma EachKeyRunPair(oracle: DetailOracle, md5: string -> Digest, hashes: SafeMap, k1: string, k2: string, runs: seq<KeyRun>)
    requires EachKeyRun(Repeat(oracle, 2), md5, hashes, [k1, k2], runs)
    ensures |runs| == 2
    ensures runs[0] == RunKey(oracle, md5, hashes, k1)
    ensures runs[1] == RunKey(oracle, md5, runs[0].hashes, k2)
  {
    ChainedPair((o, h, k) => RunKey(o, md5, h, k), oracle, hashes, k1, k2, runs);
  }

  /**
   * What every run of one key keeps to, starting from the cache `h`: one to
   * four attempts, and the cache grows by the hash the run added, which was
   * not known before, and by nothing else.
   */
  predicate KeepsCache(h: SafeMap, run: KeyRun) {
    && 1 <= run.attempts <= MaxRetries + 1
    && (run.added.Some? ==> !h.Exists(run.added.value) && run.hashes == h.Add(run.added.value))
    && (run.added.None? ==> run.hashes == h)
  }

  /**
   * The `for _, id := range vacancyIDs` loop over any per-key run that keeps
   * the cache discipline, the cache threaded from one key to the next: the
   * runs chain, `saved` counts the `nil` outcomes, and the cache grows by
   * exactly the added hashes, none known before and no two alike.
   */
  function Chain(run: (DetailOracle, SafeMap, string) -> KeyRun, oracle: DetailOracle, hashes: SafeMap, ids: seq<string>): (r: Batch)
    requires forall h, k :: KeepsCache(h, run(oracle, h, k))
    ensures Chained(run, Repeat(oracle, |ids|), hashes, ids, r.runs)
    ensures r.hashes == CacheBefore(hashes, r.runs, |r.runs|)
    ensures forall i :: 0 <= i < |ids| ==> 1 <= r.runs[i].attempts <= MaxRetries + 1
    ensures r.saved == CountNil(r.runs)
    ensures r.hashes.internal == hashes.internal + AddedHashes(r.runs)
    ensures AddedHashes(r.runs) !! hashes.internal
    ensures AddedDistinct(r.runs)
    decreases |ids|
  {
    if |ids| == 0 then Batch([], hashes, 0)
    else
      var first := run(oracle, hashes, ids[0]);
      var rest := Chain(run, oracle, first.hashes, ids[1..]);
      BatchCons(hashes, first, rest);
      ChainedConsRepeat(run, oracle, hashes, ids, first, rest.runs);
      Batch([first] + rest.runs, rest.hashes, (if first.final.IsNil() then 1 else 0) + rest.saved)
  }

  /** Every key's retry loop keeps the cache discipline. */
  lemma RunKeyKeepsCache(oracle: DetailOracle, md5: string -> Digest)
    ensures forall h, k :: KeepsCache(h, RunKey(oracle, md5, h, k))
  {
  }

  /**
   * `fetchVacancyDetails`: run `i` is the retry loop of `ids[i]`, from the
   * cache the keys before it left, and the batch ends with the cache the
   * last key left; `saved` is the rise of `savedCount`, one per key whose
   * last attempt returned `nil`; the cache grows by exactly the hashes the
   * runs added, none of which was known before and no two of which
   * coincide, so in the sequential model each content is stored at most
   * once per batch.
   */
  function FetchVacancyDetails(oracle: DetailOracle, md5: string -> Digest, hashes: SafeMap, ids: seq<string>): (r: Batch)
    ensures EachKeyRun(Repeat(oracle, |ids|), md5, hashes, ids, r.runs)
    ensures r.hashes == CacheBefore(hashes, r.runs, |r.runs|)
    ensures forall i :: 0 <= i < |ids| ==> 1 <= r.runs[i].attempts <= MaxRetries + 1
    ensures r.saved == CountNil(r.runs)
    ensures r.hashes.internal == hashes.internal + AddedHashes(r.runs)
    ensures AddedHashes(r.runs) !! hashes.internal
    ensures AddedDistinct(r.runs)
  {
    RunKeyKeepsCache(oracle, md5);
    Chain((o, h, k) => RunKey(o, md5, h, k), oracle, hashes, ids)
  }

  /** The counts and cache facts of a non-empty batch, from its first run's and the rest's. */
  lemma BatchCons(hashes: SafeMap, run: KeyRun, rest: Batch)
    requires KeepsCache(hashes, run)
    requires forall i :: 0 <= i < |rest.runs| ==> 1 <= rest.runs[i].attempts <= MaxRetries + 1
    requires rest.saved == CountNil(rest.runs)
    requires rest.hashes.internal == run.hashes.internal + AddedHashes(rest.runs)
    requires AddedHashes(rest.runs) !! run.hashes.internal
    requires AddedDistinct(rest.runs)
    ensures var runs := [run] + rest.runs;
      && (forall i :: 0 <= i < |runs| ==> 1 <= runs[i].attempts <= MaxRetries + 1)
      && (if run.final.IsNil() then 1 else 0) + rest.saved == CountNil(runs)
      && rest.hashes.internal == hashes.internal + AddedHashes(runs)
      && AddedHashes(runs) !! hashes.internal
      && AddedDistinct(runs)
  {
    var runs := [run] + rest.runs;
    assert runs[0] == run && runs[1..] == rest.runs;
    AddedDistinctCons(run, rest.runs);
  }

  lemma {:induction false} AddedHashesMember(runs: seq<KeyRun>, i: int)
    requires 0 <= i < |runs| && runs[i].added.Some?
    ensures runs[i].added.value in AddedHashes(runs)
    decreases |runs|
  {
    if i > 0 {
      assert runs[1..][i - 1] == runs[i];
      AddedHashesMember(runs[1..], i - 1);
    }
  }

  lemma AddedDistinctCons(run: KeyRun, rest: seq<KeyRun>)
    requires AddedDistinct(rest)
    requires run.added.Some? ==> run.added.value !in AddedHashes(rest)
    ensures AddedDistinct([run] + rest)
  {
    var runs := [run] + rest;
    forall i, j | 0 <= i < j < |runs| && runs[i].added.Some? && runs[j].added.Some?
      ensures runs[i].added.value != runs[j].added.value
    {
      if i == 0 {
        assert runs[j] == rest[j - 1];
        AddedHashesMember(rest, j - 1);
      } else {
        assert runs[i] == rest[i - 1] && runs[j] == rest[j - 1];
      }
    }
  }

  /** Counting over consecutive batches adds up. */
  lemma {:induction false} CountNilAppend(a: seq<KeyRun>, b: seq<KeyRun>)
    ensures CountNil(a + b) == CountNil(a) + CountNil(b)
    decreases |a|
  {
    if |a| == 0 {
      assert a + b == b;
    } else {
      assert (a + b)[1..] == a[1..] + b;
      CountNilAppend(a[1..], b);
    }
  }

  /** The hashes added over consecutive batches are those of each batch. */
  lemma {:induction false} AddedHashesAppend(a: seq<KeyRun>, b: seq<KeyRun>)
    ensures AddedHashes(a + b) == AddedHashes(a) + AddedHashes(b)
    decreases |a|
  {
    if |a| == 0 {
      assert a + b == b;
    } else {
      assert (a + b)[1..] == a[1..] + b;
      AddedHashesAppend(a[1..], b);
    }
  }

  /** Two batches each adding distinct hashes, and none in common, add distinct hashes together. */
  lemma AddedDistinctAppend(a: seq<KeyRun>, b: seq<KeyRun>)
    requires AddedDistinct(a) && AddedDistinct(b)
    requires AddedHashes(a) !! AddedHashes(b)
    ensures AddedDistinct(a + b)
  {
    var runs := a + b;
    forall i, j | 0 <= i < j < |runs| && runs[i].added.Some? && runs[j].added.Some?
      ensures runs[i].added.value != runs[j].added.value
    {
      if j < |a| {
        assert runs[i] == a[i] && runs[j] == a[j];
      } else if |a| <= i {
        assert runs[i] == b[i - |a|] && runs[j] == b[j - |a|];
      } else {
        assert runs[i] == a[i] && runs[j] == b[j - |a|];
        AddedHashesMember(a, i);
        AddedHashesMember(b, j - |a|);
      }
    }
  }

  /** A successful detail response carrying `description`. */
  predicate ServesDescription(ex: Exchange, d: string) {
    && ex.response.Responded? && ex.response.status == Http.StatusOK && ex.response.body.Read?
    && ex.response.body.decoded.Some?
    && Lookup(ex.response.body.decoded.value, DescriptionField) == Some(Http.JString(d))
  }

  /** A 404 is attempted once and never retried. */
  lemma NotFoundIsAttemptedOnce(oracle: DetailOracle, md5: string -> Digest, hashes: SafeMap, k: string)
    requires oracle(k, 0).response.Responded? && oracle(k, 0).response.status == Http.StatusNotFound
    ensures RunKey(oracle, md5, hashes, k).attempts == 1
    ensures RunKey(oracle, md5, hashes, k).final == NonRetryable
    ensures RunKey(oracle, md5, hashes, k).hashes == hashes
  {
  }

  /**
   * A key every one of whose attempts fails retryably (transport, status,
   * body read or upsert) is attempted `MaxRetries + 1` times and leaves
   * the cache alone.
   */
  lemma PersistentFailureGivesUp(oracle: DetailOracle, md5: string -> Digest, hashes: SafeMap, k: string)
    requires forall a: nat :: a <= MaxRetries ==> VerdictAt(oracle, md5, hashes, k, a) == Retryable
    ensures RunKey(oracle, md5, hashes, k).attempts == MaxRetries + 1 == 4
    ensures RunKey(oracle, md5, hashes, k).final == Retryable
    ensures RunKey(oracle, md5, hashes, k).hashes == hashes
  {
  }

  /** Two transient failures, then a new description that stores: three attempts, stored. */
  lemma TransientTwiceThenStored(oracle: DetailOracle, md5: string -> Digest, hashes: SafeMap, k: string, d: string)
    requires oracle(k, 0).response.TransportError? && oracle(k, 1).response.TransportError?
    requires ServesDescription(oracle(k, 2), d) && oracle(k, 2).upsertOk
    requires !hashes.Exists(MD5Hash(md5, d))
    ensures RunKey(oracle, md5, hashes, k).attempts == 3
    ensures RunKey(oracle, md5, hashes, k).final == Stored
    ensures RunKey(oracle, md5, hashes, k).hashes == hashes.Add(MD5Hash(md5, d))
  {
    assert VerdictAt(oracle, md5, hashes, k, 0) == Retryable;
    assert VerdictAt(oracle, md5, hashes, k, 1) == Retryable;
    assert VerdictAt(oracle, md5, hashes, k, 2) == Stored;
  }

  /** A new description served on the first try is stored at once and its hash cached. */
  lemma NewDescriptionStoredFirstTry(oracle: DetailOracle, md5: string -> Digest, hashes: SafeMap, k: string, d: string)
    requires ServesDescription(oracle(k, 0), d) && oracle(k, 0).upsertOk
    requires !hashes.Exists(MD5Hash(md5, d))
    ensures RunKey(oracle, md5, hashes, k).attempts == 1
    ensures RunKey(oracle, md5, hashes, k).final == Stored
    ensures RunKey(oracle, md5, hashes, k).hashes == hashes.Add(MD5Hash(md5, d))
  {
    assert VerdictAt(oracle, md5, hashes, k, 0) == Stored;
  }

  /** A description whose hash is already cached is a duplicate on the first try: no retry, no upsert. */
  lemma KnownDescriptionIsDuplicate(oracle: DetailOracle, md5: string -> Digest, hashes: SafeMap, k: string, d: string)
    requires ServesDescription(oracle(k, 0), d)
    requires hashes.Exists(MD5Hash(md5, d))
    ensures RunKey(oracle, md5, hashes, k).attempts == 1
    ensures RunKey(oracle, md5, hashes, k).final == Duplicate
    ensures RunKey(oracle, md5, hashes, k).hashes == hashes
  {
    assert VerdictAt(oracle, md5, hashes, k, 0) == Duplicate;
  }

  /**
   * Two keys with the same new description: the first is stored, the
   * second skipped as a duplicate with no upsert, and `savedCount` still
   * rises by two, because a skipped duplicate also returns `nil`.
   */
  lemma SameContentStoredOnce(oracle: DetailOracle, md5: string -> Digest, hashes: SafeMap, k1: string, k2: string, d: string)
    requires ServesDescription(oracle(k1, 0), d) && oracle(k1, 0).upsertOk
    requires ServesDescription(oracle(k2, 0), d)
    requires !hashes.Exists(MD5Hash(md5, d))
    ensures var b := FetchVacancyDetails(oracle, md5, hashes, [k1, k2]);
      && b.runs[0].final == Stored && b.runs[1].final == Duplicate
      && b.runs[1].attempts == 1
      && b.saved == 2
      && b.hashes == hashes.Add(MD5Hash(md5, d))
  {
    var b := FetchVacancyDetails(oracle, md5, hashes, [k1, k2]);
    EachKeyRunPair(oracle, md5, hashes, k1, k2, b.runs);
    NewDescriptionStoredFirstTry(oracle, md5, hashes, k1, d);
    KnownDescriptionIsDuplicate(oracle, md5, b.runs[0].hashes, k2, d);
    PairTotals(hashes, b);
  }
}
