/** The per-record cache in front of the catalog service. */
module MetadataCache {
  import opened Wrappers

  datatype Record = Record(key: string, body: string)

  /** Cache keys are injective in (catalog, content key); records nobody asked for share the missing key. */
  type CacheKey = Option<(string, string)>

  type Entries = map<CacheKey, Record>

  /** The catalog service: the records it returns for a catalog and a set of keys. */
  type Service = (string, set<string>) -> seq<Record>

  /** The distinct requested keys, in order of first appearance. */
  function DistinctKeys(keys: seq<string>): (r: seq<string>)
    ensures forall k :: k in r <==> k in keys
    ensures forall i, j :: 0 <= i < j < |r| ==> r[i] != r[j]
  {
    if keys == [] then []
    else
      var n := |keys| - 1;
      assert keys == keys[..n] + [keys[n]];
      var rest := DistinctKeys(keys[..n]);
      if keys[n] in rest then rest else rest + [keys[n]]
  }

  /** The cached records of the given keys, in order. */
  function CachedRecords(entries: Entries, catalog: string, keys: seq<string>): seq<Record> {
    if keys == [] then []
    else
      var n := |keys| - 1;
      var rest := CachedRecords(entries, catalog, keys[..n]);
      if Some((catalog, keys[n])) in entries then rest + [entries[Some((catalog, keys[n]))]] else rest
  }

  function MissingKeys(entries: Entries, catalog: string, keys: seq<string>): set<string> {
    set k | k in keys && Some((catalog, k)) !in entries
  }

  function KeyFor(catalog: string, keys: seq<string>, r: Record): CacheKey {
    if r.key in keys then Some((catalog, r.key)) else None
  }

  /** The bulk set; a later record wins. */
  function Stored(entries: Entries, catalog: string, keys: seq<string>, fetched: seq<Record>): Entries {
    if fetched == [] then entries
    else
      var n := |fetched| - 1;
      Stored(entries, catalog, keys, fetched[..n])[KeyFor(catalog, keys, fetched[n]) := fetched[n]]
  }

  function Fetched(entries: Entries, catalog: string, keys: seq<string>, service: Service): seq<Record> {
    var missing := MissingKeys(entries, catalog, keys);
    if missing == {} then [] else service(catalog, missing)
  }

  /** The requested keys not served from the cache after looking at some of them. */
  ghost function Unserved(entries: Entries, catalog: string, keys: seq<string>, seen: seq<string>): set<string> {
    set k | k in keys && !(k in seen && Some((catalog, k)) in entries)
  }

  lemma CachedStep(entries: Entries, catalog: string, keys: seq<string>, distinct: seq<string>, i: nat)
    requires i < |distinct|
    ensures var before, key := CachedRecords(entries, catalog, distinct[..i]), Some((catalog, distinct[i]));
      CachedRecords(entries, catalog, distinct[..i + 1]) == if key in entries then before + [entries[key]] else before
    ensures Unserved(entries, catalog, keys, distinct[..i + 1])
         == Unserved(entries, catalog, keys, distinct[..i])
            - if Some((catalog, distinct[i])) in entries then {distinct[i]} else {}
  {
    assert distinct[..i + 1][..i] == distinct[..i];
    assert distinct[..i + 1] == distinct[..i] + [distinct[i]];
  }

  lemma StoredStep(entries: Entries, catalog: string, keys: seq<string>, fetched: seq<Record>, i: nat)
    requires i < |fetched|
    ensures Stored(entries, catalog, keys, fetched[..i + 1])
         == Stored(entries, catalog, keys, fetched[..i])[KeyFor(catalog, keys, fetched[i]) := fetched[i]]
  {
    assert fetched[..i + 1][..i] == fetched[..i];
  }

  class Cache {
    var entries: Entries

    constructor ()
      ensures entries == map[]
    {
      entries := map[];
    }

    /** The bulk get: the cached records, and the keys that are left to fetch. */
    method ServeCached(catalog: string, keys: seq<string>) returns (results: seq<Record>, toFetch: set<string>)
      ensures results == CachedRecords(entries, catalog, DistinctKeys(keys))
      ensures toFetch == MissingKeys(entries, catalog, keys)
    {
      results, toFetch := [], set k | k in keys;
      var distinct := DistinctKeys(keys);
      for i := 0 to |distinct|
        invariant results == CachedRecords(entries, catalog, distinct[..i])
        invariant toFetch == Unserved(entries, catalog, keys, distinct[..i])
      {
        CachedStep(entries, catalog, keys, distinct, i);
        var key := Some((catalog, distinct[i]));
        if key in entries {
          results := results + [entries[key]];
          toFetch := toFetch - {distinct[i]};
        }
      }
      assert distinct[..|distinct|] == distinct;
    }

    /** The bulk set of everything that had to be fetched. */
    method StoreFetched(catalog: string, keys: seq<string>, fetched: seq<Record>)
      modifies this
      ensures entries == Stored(old(entries), catalog, keys, fetched)
    {
      ghost var before := entries;
      for i := 0 to |fetched|
        invariant entries == Stored(before, catalog, keys, fetched[..i])
      {
        StoredStep(before, catalog, keys, fetched, i);
        entries := entries[KeyFor(catalog, keys, fetched[i]) := fetched[i]];
      }
      assert fetched[..|fetched|] == fetched;
    }

    /** Serve what is cached, fetch the rest, cache it, and return both. */
    method GetAndCacheCatalogContentMetadata(catalog: string, keys: seq<string>, service: Service)
      returns (results: seq<Record>)
      modifies this
      ensures results == CachedRecords(old(entries), catalog, DistinctKeys(keys))
                         + Fetched(old(entries), catalog, keys, service)
      ensures entries == Stored(old(entries), catalog, keys, Fetched(old(entries), catalog, keys, service))
    {
      var cached, toFetch := ServeCached(catalog, keys);
      var fetched := if toFetch != {} then service(catalog, toFetch) else [];
      StoreFetched(catalog, keys, fetched);
      results := cached + fetched;
    }
  }

  // ---------- agreement with the backend ----------

  /** The backend's records by catalog and key, each carrying its key. */
  type Backend = map<(string, string), Record>

  ghost predicate CarriesKeys(b: Backend) {
    forall c, k :: (c, k) in b ==> b[(c, k)].key == k
  }

  /** Every cached entry for a real key is the backend's record. */
  ghost predicate Coherent(entries: Entries, b: Backend) {
    forall c, k :: Some((c, k)) in entries ==> (c, k) in b && entries[Some((c, k))] == b[(c, k)]
  }

  ghost predicate NoRepeats(s: seq<Record>) {
    forall i, j :: 0 <= i < j < |s| ==> s[i] != s[j]
  }

  /** Exactly the backend's records for these keys of the catalog, each once. */
  ghost predicate IsAnswer(s: seq<Record>, b: Backend, catalog: string, keys: set<string>) {
    && NoRepeats(s)
    && (forall r :: r in s ==> r.key in keys && (catalog, r.key) in b && r == b[(catalog, r.key)])
    && (forall k :: k in keys && (catalog, k) in b ==> b[(catalog, k)] in s)
  }

  ghost predicate Faithful(service: Service, b: Backend) {
    forall c, keys :: IsAnswer(service(c, keys), b, c, keys)
  }

  function CachedKeys(entries: Entries, catalog: string, keys: seq<string>): set<string> {
    set k | k in keys && Some((catalog, k)) in entries
  }

  /** A served record stands at the place given by the number of cached keys before its own. */
  lemma {:induction false} CachedInKeyOrder(entries: Entries, catalog: string, keys: seq<string>, i: nat)
    requires i < |keys| && Some((catalog, keys[i])) in entries
    ensures var place := |CachedRecords(entries, catalog, keys[..i])|;
      place < |CachedRecords(entries, catalog, keys)|
      && CachedRecords(entries, catalog, keys)[place] == entries[Some((catalog, keys[i]))]
  {
    var n := |keys| - 1;
    if i < n {
      assert keys[..n][..i] == keys[..i];
      CachedInKeyOrder(entries, catalog, keys[..n], i);
    }
  }

  /** After the bulk set a key holds the last fetched record for it, or what it held before. */
  lemma {:induction false} LastFetchedIsStored(
      entries: Entries, catalog: string, keys: seq<string>, fetched: seq<Record>, i: nat)
    requires i < |fetched| && fetched[i].key in keys
    requires forall j :: i < j < |fetched| ==> fetched[j].key != fetched[i].key
    ensures var after := Stored(entries, catalog, keys, fetched);
      Some((catalog, fetched[i].key)) in after && after[Some((catalog, fetched[i].key))] == fetched[i]
  {
    var n := |fetched| - 1;
    if i < n {
      LastFetchedIsStored(entries, catalog, keys, fetched[..n], i);
    }
  }

  /** An answer extended by the record of one more known key. */
  lemma AnswerGrows(s: seq<Record>, b: Backend, catalog: string, keys: set<string>, k: string)
    requires IsAnswer(s, b, catalog, keys) && CarriesKeys(b) && k !in keys && (catalog, k) in b
    ensures IsAnswer(s + [b[(catalog, k)]], b, catalog, keys + {k})
  {
    assert forall i :: 0 <= i < |s| ==> s[i] in s;
  }

  lemma {:induction false} CachedRecordsAnswer(entries: Entries, b: Backend, catalog: string, keys: seq<string>)
    requires Coherent(entries, b) && CarriesKeys(b)
    requires forall i, j :: 0 <= i < j < |keys| ==> keys[i] != keys[j]
    ensures IsAnswer(CachedRecords(entries, catalog, keys), b, catalog, CachedKeys(entries, catalog, keys))
  {
    if keys != [] {
      var n := |keys| - 1;
      var rest, known := CachedRecords(entries, catalog, keys[..n]), CachedKeys(entries, catalog, keys[..n]);
      CachedRecordsAnswer(entries, b, catalog, keys[..n]);
      assert keys == keys[..n] + [keys[n]];
      if Some((catalog, keys[n])) in entries {
        assert keys[n] !in keys[..n];
        AnswerGrows(rest, b, catalog, known, keys[n]);
        assert CachedKeys(entries, catalog, keys) == known + {keys[n]};
      } else {
        assert CachedKeys(entries, catalog, keys) == known;
      }
    }
  }

  lemma {:induction false} StoringKeepsCoherence(
      entries: Entries, b: Backend, catalog: string, keys: seq<string>, fetched: seq<Record>)
    requires Coherent(entries, b)
    requires forall r :: r in fetched ==> (catalog, r.key) in b && r == b[(catalog, r.key)]
    ensures Coherent(Stored(entries, catalog, keys, fetched), b)
    ensures forall r :: r in fetched && r.key in keys ==>
      Some((catalog, r.key)) in Stored(entries, catalog, keys, fetched)
    ensures entries.Keys <= Stored(entries, catalog, keys, fetched).Keys
  {
    if fetched != [] {
      var n := |fetched| - 1;
      assert fetched == fetched[..n] + [fetched[n]];
      StoringKeepsCoherence(entries, b, catalog, keys, fetched[..n]);
    }
  }

  /**
   With a coherent cache and a faithful service, whatever was cached, a call returns exactly the backend's
   records for the distinct requested keys, keeps the cache coherent and leaves every known requested key cached.
   */
  lemma CallsAgreeWithTheBackend(entries: Entries, b: Backend, catalog: string, keys: seq<string>, service: Service)
    requires Coherent(entries, b) && CarriesKeys(b) && Faithful(service, b)
    ensures var fetched := Fetched(entries, catalog, keys, service);
      var after := Stored(entries, catalog, keys, fetched);
      && IsAnswer(CachedRecords(entries, catalog, DistinctKeys(keys)) + fetched, b, catalog, set k | k in keys)
      && Coherent(after, b)
      && (forall k :: k in keys && (catalog, k) in b ==> Some((catalog, k)) in after)
  {
    var missing := MissingKeys(entries, catalog, keys);
    var cached := CachedRecords(entries, catalog, DistinctKeys(keys));
    var fetched := Fetched(entries, catalog, keys, service);
    CachedRecordsAnswer(entries, b, catalog, DistinctKeys(keys));
    assert IsAnswer(service(catalog, missing), b, catalog, missing);
    assert IsAnswer(fetched, b, catalog, missing);
    StoringKeepsCoherence(entries, b, catalog, keys, fetched);
    forall i, j | 0 <= i < |cached| && 0 <= j < |fetched|
      ensures cached[i] != fetched[j]
    {
      assert cached[i] in cached && fetched[j] in fetched;
    }
  }

  /** A second call for the same keys fetches only keys the backend does not know. */
  lemma SecondCallFetchesOnlyUnknownKeys(
      entries: Entries, b: Backend, catalog: string, keys: seq<string>, service: Service)
    requires Coherent(entries, b) && CarriesKeys(b) && Faithful(service, b)
    ensures var after := Stored(entries, catalog, keys, Fetched(entries, catalog, keys, service));
      && (forall k :: k in MissingKeys(after, catalog, keys) <==> k in keys && (catalog, k) !in b)
      && Fetched(after, catalog, keys, service) == []
  {
    CallsAgreeWithTheBackend(entries, b, catalog, keys, service);
    var after := Stored(entries, catalog, keys, Fetched(entries, catalog, keys, service));
    var missing := MissingKeys(after, catalog, keys);
    assert IsAnswer(service(catalog, missing), b, catalog, missing);
    var again := service(catalog, missing);
    HeadIsMember(again);
  }

  lemma HeadIsMember(s: seq<Record>)
    ensures s == [] || s[0] in s
  {
  }
}
