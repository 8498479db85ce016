/**
 * `MongoStore` of storage/mongo_store.go: the `vacancies` collection plus
 * two in-memory caches. The collection is modelled as far as the upsert
 * writes it: one document per value of its `id` field. What `Find` returns
 * to the load is an oracle.
 */
module Storage {
  import opened Wrappers
  import opened Http
  import opened Seeding
  import opened Hashing
  import opened SafeMaps
  import opened Process

  /** The collection's documents, by the value of their `id` field (`None`: missing or null). */
  type Collection = map<Option<JsonValue>, Payload>

  /**
   * `existingVacancyIDs` (a nil map reads as empty),
   * `existingDescriptionHashes` (`None` while the `*sync.Map` is still nil,
   * before the first `LoadExistingData`), and the collection.
   */
  datatype MongoStore = MongoStore(ids: set<string>, hashes: Option<set<string>>, docs: Collection)

  /** `NewMongoStore` over a collection: neither cache has been created yet. */
  function Fresh(docs: Collection): MongoStore {
    MongoStore({}, None, docs)
  }

  /**
   * `LoadExistingData`: both caches are replaced by fresh sets before the
   * scan, so whatever they held is discarded even when `Find` fails; a
   * decode error leaves what was scanned before it.
   */
  method LoadExistingData(s: MongoStore, find: FindResult) returns (s': MongoStore, err: Option<LoadError>)
    ensures s'.hashes.Some? && s'.docs == s.docs
    ensures find.FindFailed? ==> s'.ids == {} && s'.hashes == Some({}) && err == Some(FindError)
    ensures find.Found? ==>
      var n := DecodedCount(find.items);
      && s'.ids == IdsOf(find.items, n)
      && s'.hashes.value == HashesOf(find.items, n)
      && (err.None? <==> n == |find.items| && !find.iterationFailed)
    ensures "" !in s'.hashes.value
  {
    s' := MongoStore({}, Some({}), s.docs);
    if find.FindFailed? {
      return s', Some(FindError);
    }
    var ids, hashes, decodeFailed := ScanCursor(find.items);
    s' := MongoStore(ids, Some(hashes), s.docs);
    if decodeFailed {
      return s', Some(DecodeError);
    }
    err := if find.iterationFailed then Some(CursorError) else None;
  }

  /** `VacancyExists`: membership in the loaded ID snapshot. */
  predicate VacancyExists(s: MongoStore, id: string) {
    id in s.ids
  }

  /** `DescriptionHashExists`; calling it before the first load dereferences a nil `*sync.Map`. */
  predicate DescriptionHashExists(s: MongoStore, h: string)
    requires s.hashes.Some?
  {
    h in s.hashes.value
  }

  /** `AddDescriptionHash`: afterwards `h` exists, earlier hashes remain, the ID cache is untouched. */
  function AddDescriptionHash(s: MongoStore, h: string): (s': MongoStore)
    requires s.hashes.Some?
    ensures s'.hashes.Some? && DescriptionHashExists(s', h)
    ensures forall g :: DescriptionHashExists(s, g) ==> DescriptionHashExists(s', g)
    ensures forall g :: DescriptionHashExists(s', g) ==> g == h || DescriptionHashExists(s, g)
    ensures s'.ids == s.ids && s'.docs == s.docs
  {
    s.(hashes := Some(s.hashes.value + {h}))
  }

  /**
   * A successful `UpdateOne(filter {"id": call.filterId}, {"$set": call.fields})`
   * with upsert on: the matching document gets every field set, keeping
   * the rest; with no match, a document of the set fields (and the
   * filter's `id`, null when missing) is inserted.
   */
  function ApplyUpsert(docs: Collection, call: UpsertCall): Collection {
    var key := call.filterId;
    var doc := if key in docs then docs[key] + call.fields
               else if key.None? then call.fields[IdField := JNonString]
               else call.fields;
    docs[key := doc]
  }

  /**
   * `UpsertVacancy`: one `UpdateOne` filtered on `data["id"]` that sets
   * every field of `data`, inserting when nothing matches; whether it
   * succeeds (`upsertOk`) is an oracle, and a failed one writes nothing.
   * Afterwards the document for `data["id"]` holds every field of `data`
   * with its value, keeps the fields an earlier document had and `data`
   * does not, and has no field from anywhere else; every other document,
   * and both caches, are as they were.
   */
  function UpsertVacancy(s: MongoStore, data: Payload, upsertOk: bool): (r: (MongoStore, bool))
    ensures r.0.ids == s.ids && r.0.hashes == s.hashes
    ensures r.1 <==> upsertOk
    ensures !upsertOk ==> r.0.docs == s.docs
    ensures upsertOk ==>
      var key := Lookup(data, IdField);
      && r.0.docs.Keys == s.docs.Keys + {key}
      && (forall f :: f in data ==> f in r.0.docs[key] && r.0.docs[key][f] == data[f])
      && (key in s.docs ==> forall f :: f in s.docs[key] && f !in data ==> f in r.0.docs[key] && r.0.docs[key][f] == s.docs[key][f])
      && (forall f :: f in r.0.docs[key] ==> f in data || f == IdField || (key in s.docs && f in s.docs[key]))
      && (forall k :: k in s.docs && k != key ==> r.0.docs[k] == s.docs[k])
  {
    if upsertOk then (s.(docs := ApplyUpsert(s.docs, UpsertCall(Lookup(data, IdField), data))), true)
    else (s, false)
  }

  /** Repeating a successful upsert of the same data changes nothing more: a retried write is harmless. */
  lemma UpsertIdempotent(s: MongoStore, data: Payload)
    ensures var once := UpsertVacancy(s, data, true).0;
      UpsertVacancy(once, data, true).0 == once
  {
    var once := UpsertVacancy(s, data, true).0;
    var key := Lookup(data, IdField);
    assert once.docs[key] + data == once.docs[key];
  }

  /** The store operations that may follow a load. */
  datatype Op =
    | QueryVacancy(id: string)
    | QueryHash(h: string)
    | AddHash(h: string)
    | Upsert(data: Payload, upsertOk: bool)

  function Apply(s: MongoStore, op: Op): MongoStore
    requires s.hashes.Some?
  {
    match op
    case AddHash(h) => AddDescriptionHash(s, h)
    case Upsert(data, ok) => UpsertVacancy(s, data, ok).0
    case _ => s
  }

  function ApplyAll(s: MongoStore, ops: seq<Op>): (s': MongoStore)
    requires s.hashes.Some?
    ensures s'.hashes.Some?
    decreases |ops|
  {
    if |ops| == 0 then s else ApplyAll(Apply(s, ops[0]), ops[1..])
  }

  /** The hashes some operations add. */
  function HashesAdded(ops: seq<Op>): set<string> {
    set i | 0 <= i < |ops| && ops[i].AddHash? :: ops[i].h
  }

  /**
   * After a load, no sequence of queries, hash additions and upserts
   * changes the ID cache, so `VacancyExists` answers from the loaded
   * snapshot only, even for vacancies upserted since; the hash cache
   * grows by exactly the hashes added.
   */
  lemma {:induction false} OnlyLoadWritesIds(s: MongoStore, ops: seq<Op>)
    requires s.hashes.Some?
    ensures ApplyAll(s, ops).ids == s.ids
    ensures ApplyAll(s, ops).hashes.value == s.hashes.value + HashesAdded(ops)
    decreases |ops|
  {
    if |ops| > 0 {
      OnlyLoadWritesIds(Apply(s, ops[0]), ops[1..]);
      var first := if ops[0].AddHash? then {ops[0].h} else {};
      assert HashesAdded(ops) == first + HashesAdded(ops[1..]) by {
        forall x | x in HashesAdded(ops) ensures x in first + HashesAdded(ops[1..]) {
          var i :| 0 <= i < |ops| && ops[i].AddHash? && ops[i].h == x;
          if i > 0 {
            assert ops[1..][i - 1] == ops[i];
          }
        }
        forall x | x in HashesAdded(ops[1..]) ensures x in HashesAdded(ops) {
          var i :| 0 <= i < |ops[1..]| && ops[1..][i].AddHash? && ops[1..][i].h == x;
          assert ops[i + 1] == ops[1..][i];
        }
      }
    }
  }
}
