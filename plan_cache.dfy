/**
 * The mapper context's cache, shared by the construction plan (keys ending
 * in " Ctor") and the mapper factory (keys ending in " ObjectMapper"), used
 * through get-or-add.
 */
module PlanCache {
  import opened Ir

  /** A compiled object mapper: the mapping lambda it was built from. */
  datatype ObjectMapper = ObjectMapper(lambda: Expr)

  /** What the cache holds: a construction expression (null when not constructable) or a mapper. */
  datatype Cached = Creation(creation: Option<Expr>) | Mapper(mapper: ObjectMapper)

  const CtorSuffix := " Ctor"
  const MapperSuffix := " ObjectMapper"

  predicate EndsWith(s: string, suffix: string) {
    |suffix| <= |s| && s[|s| - |suffix|..] == suffix
  }

  /** A key's suffix names the kind of artefact stored under it. */
  predicate FitsKey(key: string, value: Cached) {
    (EndsWith(key, CtorSuffix) ==> value.Creation?) && (EndsWith(key, MapperSuffix) ==> value.Mapper?)
  }

  /** No key ends in both suffixes: their last five characters differ. */
  lemma SuffixesExclusive(key: string)
    ensures !(EndsWith(key, CtorSuffix) && EndsWith(key, MapperSuffix))
  {
    if EndsWith(key, CtorSuffix) && |MapperSuffix| <= |key| {
      var tail := key[|key| - |MapperSuffix|..];
      assert key[|key| - 5] == CtorSuffix[0] == ' ';
      assert tail[8] == key[|key| - 5];
      assert tail[8] != MapperSuffix[8];
    }
  }

  class Cache {
    var entries: map<string, Cached>

    /** Every entry is of the kind its key's suffix names. */
    ghost predicate Valid()
      reads this
    {
      forall key :: key in entries ==> FitsKey(key, entries[key])
    }

    constructor()
      ensures Valid() && entries == map[]
    {
      entries := map[];
    }

    /**
     * `GetOrAdd`: a key already present returns its entry and leaves the cache
     * alone; otherwise the factory runs, once, and its value is stored.
     */
    method GetOrAdd(key: string, valueFactory: string -> Cached) returns (value: Cached, factoryRan: bool)
      requires Valid() && FitsKey(key, valueFactory(key))
      modifies this
      ensures Valid()
      ensures factoryRan <==> key !in old(entries)
      ensures key in old(entries) ==> value == old(entries)[key] && entries == old(entries)
      ensures key !in old(entries) ==> value == valueFactory(key) && entries == old(entries)[key := value]
    {
      if key in entries {
        value := entries[key];
        factoryRan := false;
      } else {
        value := valueFactory(key);
        entries := entries[key := value];
        factoryRan := true;
      }
    }
  }
}
