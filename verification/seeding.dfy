/**
 * Seeding the dedup caches from the `(id, description_hash)` projection of
 * the stored vacancies: the cursor scan shared by `loadExistingData` in
 * main.go and `MongoStore.LoadExistingData`, and main.go's wrapper.
 */
module Seeding {
  import opened Wrappers
  import opened SafeMaps

  /** A projected document; a field the document lacks decodes as "". */
  datatype StoredDoc = StoredDoc(id: string, descriptionHash: string)

  /** One `cursor.Next` step: the document decoded, or `cursor.Decode` failed. */
  datatype CursorItem = Decodes(doc: StoredDoc) | Undecodable

  /**
   * `collection.Find` failed, or it produced a cursor yielding `items` and
   * then reporting `cursor.Err() != nil` when `iterationFailed`.
   */
  datatype FindResult = FindFailed | Found(items: seq<CursorItem>, iterationFailed: bool)

  /** How many items the scan consumes before the first decode failure. */
  function DecodedCount(items: seq<CursorItem>): (n: nat)
    ensures n <= |items|
    ensures forall j :: 0 <= j < n ==> items[j].Decodes?
    ensures n < |items| ==> items[n].Undecodable?
  {
    if |items| == 0 || items[0].Undecodable? then 0 else 1 + DecodedCount(items[1..])
  }

  /** The IDs of the first `n` items. */
  function IdsOf(items: seq<CursorItem>, n: nat): set<string>
    requires n <= |items|
  {
    set j | 0 <= j < n && items[j].Decodes? :: items[j].doc.id
  }

  /** The non-empty hashes of the first `n` items. */
  function HashesOf(items: seq<CursorItem>, n: nat): set<string>
    requires n <= |items|
  {
    set j | 0 <= j < n && items[j].Decodes? && items[j].doc.descriptionHash != "" :: items[j].doc.descriptionHash
  }

  /**
   * The `for cursor.Next(ctx)` loop: every decoded ID goes into the ID set,
   * every non-empty hash into the hash set, and the loop stops at the first
   * document that does not decode.
   */
  method ScanCursor(items: seq<CursorItem>) returns (ids: set<string>, hashes: set<string>, decodeFailed: bool)
    ensures decodeFailed <==> DecodedCount(items) < |items|
    ensures ids == IdsOf(items, DecodedCount(items))
    ensures hashes == HashesOf(items, DecodedCount(items))
    ensures "" !in hashes
  {
    ids, hashes, decodeFailed := {}, {}, false;
    var i := 0;
    while i < |items|
      invariant 0 <= i <= |items|
      invariant forall j :: 0 <= j < i ==> items[j].Decodes?
      invariant ids == IdsOf(items, i)
      invariant hashes == HashesOf(items, i)
    {
      if items[i].Undecodable? {
        DecodedCountIs(items, i);
        decodeFailed := true;
        return;
      }
      var doc := items[i].doc;
      ids := ids + {doc.id};
      if doc.descriptionHash != "" {
        hashes := hashes + {doc.descriptionHash};
      }
      assert IdsOf(items, i + 1) == IdsOf(items, i) + {doc.id};
      assert HashesOf(items, i + 1) == HashesOf(items, i) + (if doc.descriptionHash != "" then {doc.descriptionHash} else {});
      i := i + 1;
    }
    DecodedCountIs(items, |items|);
  }

  /** The decoded count is the index of the first undecodable item, or the length. */
  lemma {:induction false} DecodedCountIs(items: seq<CursorItem>, n: nat)
    requires n <= |items|
    requires forall j :: 0 <= j < n ==> items[j].Decodes?
    requires n == |items| || items[n].Undecodable?
    ensures DecodedCount(items) == n
    decreases n
  {
    if n > 0 {
      DecodedCountIs(items[1..], n - 1);
    }
  }

  /** Why main.go's load failed. */
  datatype LoadError = FindError | DecodeError | CursorError

  /**
   * `loadExistingData` in main.go: on success the ID map holds every
   * projected ID and the hash `SafeMap` every non-empty projected hash;
   * any failure discards both.
   */
  method LoadExistingData(find: FindResult) returns (r: Result<(set<string>, SafeMap), LoadError>)
    ensures r.Success? <==>
      find.Found? && !find.iterationFailed && forall j :: 0 <= j < |find.items| ==> find.items[j].Decodes?
    ensures r.Success? ==>
      && (forall j :: 0 <= j < |find.items| ==> find.items[j].doc.id in r.value.0)
      && (forall id :: id in r.value.0 ==> exists j :: 0 <= j < |find.items| && find.items[j].doc.id == id)
      && (forall j :: 0 <= j < |find.items| && find.items[j].doc.descriptionHash != "" ==>
            r.value.1.Exists(find.items[j].doc.descriptionHash))
      && (forall h :: r.value.1.Exists(h) ==>
            h != "" && exists j :: 0 <= j < |find.items| && find.items[j].doc.descriptionHash == h)
  {
    if find.FindFailed? {
      return Failure(FindError);
    }
    var ids, hashes, decodeFailed := ScanCursor(find.items);
    if decodeFailed {
      return Failure(DecodeError);
    }
    if find.iterationFailed {
      return Failure(CursorError);
    }
    return Success((ids, SafeMap(hashes)));
  }
}
