/** `SafeMap` from main.go: a lock-guarded set of strings (the lock is not modelled). */
module SafeMaps {

  datatype SafeMap = SafeMap(internal: set<string>) {

    /** `Exists(key)`: whether `key` has been added. */
    predicate Exists(key: string) {
      key in internal
    }

    /**
     * `Add(key)`: afterwards `key` exists, every key that existed still
     * exists, and no other key appears.
     */
    function Add(key: string): (m: SafeMap)
      ensures m.Exists(key)
      ensures forall k :: Exists(k) ==> m.Exists(k)
      ensures forall k :: m.Exists(k) ==> k == key || Exists(k)
    {
      SafeMap(internal + {key})
    }
  }

  /** `NewSafeMap()`: nothing exists. */
  const Empty: SafeMap := SafeMap({})
}
