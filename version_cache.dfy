/**
 * Resolution of a package's latest version through the session cache.
 *
 * The network is an oracle: `FetchOutcome` is what one request to the
 * registry's "latest" endpoint comes to. `Failed` covers a non-ok status, a
 * body that is not JSON, a transport error and any other exception inside
 * the `try`; `Fetched(v)` is a parsed body whose `version` field is `v`
 * (`None` when the field is absent, i.e. `undefined`).
 */
module VersionCache {
  import opened Wrappers

  /** The cache: package name to the `version` value stored for it, possibly `undefined`. */
  type Cache = map<string, Option<string>>

  datatype FetchOutcome = Failed | Fetched(version: Option<string>)

  /** JavaScript truthiness of a `string | null | undefined` value. */
  predicate Truthy(v: Option<string>) {
    v.Some? && v.value != ""
  }

  /** `v || null`. */
  function OrNull(v: Option<string>): (r: Option<string>)
    ensures r.Some? <==> Truthy(v)
    ensures r.Some? ==> r == v
  {
    if Truthy(v) then v else None
  }

  /**
   * One call of `getLatestVersion`: what it returns, the cache afterwards,
   * and whether it issued a request.
   */
  datatype Lookup = Lookup(latest: Option<string>, cache: Cache, fetched: bool)

  function LookupLatest(cache: Cache, name: string, answer: FetchOutcome): (r: Lookup)
    // a request is issued exactly on a cache miss
    ensures r.fetched <==> name !in cache
    // hit: no change, the cached value unless it is falsy (then null, and no refetch)
    ensures name in cache ==> r.cache == cache && r.latest == OrNull(cache[name])
    // miss, failed request: null, and the name stays uncached so a later call retries
    ensures name !in cache && answer.Failed? ==> r.cache == cache && r.latest.None?
    // miss, parsed body: `data.version` is stored, even when undefined, and returned
    ensures name !in cache && answer.Fetched? ==>
      r.cache == cache[name := answer.version] && r.latest == answer.version
    // existing entries are never overwritten, and only `name` can be added
    ensures forall k :: k in cache ==> k in r.cache && r.cache[k] == cache[k]
    ensures r.cache.Keys <= cache.Keys + {name}
  {
    if name in cache then
      Lookup(OrNull(cache[name]), cache, false)
    else
      match answer
      case Failed => Lookup(None, cache, true)
      case Fetched(v) => Lookup(v, cache[name := v], true)
  }

  /**
   * Asking twice: once the first call has stored a value (or found one), the
   * second sends no request, leaves the cache as it is and returns the same
   * answer up to truthiness; after a failed request the name is still
   * uncached, so the second call asks the registry again.
   */
  lemma LookupTwice(cache: Cache, name: string, first: FetchOutcome, second: FetchOutcome)
    ensures name in cache || first.Fetched? ==>
      && !LookupLatest(LookupLatest(cache, name, first).cache, name, second).fetched
      && LookupLatest(LookupLatest(cache, name, first).cache, name, second).cache == LookupLatest(cache, name, first).cache
      && LookupLatest(LookupLatest(cache, name, first).cache, name, second).latest == OrNull(LookupLatest(cache, name, first).latest)
    ensures name !in cache && first.Failed? ==>
      LookupLatest(LookupLatest(cache, name, first).cache, name, second) == LookupLatest(cache, name, second)
  {
  }
}
