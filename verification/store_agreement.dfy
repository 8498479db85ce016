/**
 * Where `MongoStore` of storage/mongo_store.go meets the code of main.go
 * that does the same work inline: the snapshot filter of each search page,
 * the `SafeMap` of description hashes and the upsert of `processVacancy`.
 * The storage package itself imports none of main.go.
 */
module StoreAgreement {
  import opened Wrappers
  import opened Http
  import opened Hashing
  import opened SafeMaps
  import opened Process
  import opened Storage
  import Pagination

  /**
   * The store's `VacancyExists` is the check main.go makes inline on each
   * search page: the IDs kept by that filter against the store's snapshot
   * are exactly those `VacancyExists` rejects, each as often as listed.
   */
  lemma VacancyExistsDecidesFilter(s: MongoStore, ids: seq<string>)
    ensures forall x :: multiset(Pagination.FilterNew(ids, s.ids))[x] == if VacancyExists(s, x) then 0 else multiset(ids)[x]
  {
    Pagination.FilterNewKeepsExactlyNew(ids, s.ids);
  }

  /**
   * The store's hash cache behaves as main.go's `SafeMap`: holding the same
   * hashes, `DescriptionHashExists` answers as `Exists`, and after adding
   * the same hash both hold the same hashes again.
   */
  lemma HashCacheIsSafeMap(s: MongoStore, m: SafeMap, h: string)
    requires s.hashes == Some(m.internal)
    ensures forall g :: DescriptionHashExists(s, g) <==> m.Exists(g)
    ensures AddDescriptionHash(s, h).hashes == Some(m.Add(h).internal)
  {
  }

  /**
   * The store's upsert, given the vacancy with its `description_hash` set,
   * writes the collection exactly as the call `processVacancy` in main.go
   * issues inline does.
   */
  lemma UpsertMatchesPipeline(s: MongoStore, ex: Exchange, hashes: SafeMap, md5: string -> Digest)
    requires ProcessVacancy(ex, hashes, md5).upsert.Some?
    ensures var data := ex.response.body.decoded.value;
      var h := MD5Hash(md5, Description(ex.response).value);
      var call := ProcessVacancy(ex, hashes, md5).upsert.value;
      UpsertVacancy(s, data[DescriptionHashField := JString(h)], ex.upsertOk).0.docs ==
        if ex.upsertOk then ApplyUpsert(s.docs, call) else s.docs
  {
    var data := ex.response.body.decoded.value;
    var h := MD5Hash(md5, Description(ex.response).value);
    var call := ProcessVacancy(ex, hashes, md5).upsert.value;
    assert call.fields == data[DescriptionHashField := JString(h)];
    assert call.filterId == Lookup(call.fields, IdField);
  }
}
