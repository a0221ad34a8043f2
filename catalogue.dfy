/** The read-through cache in front of `GET /product`: one Redis key ("products")
    holding the whole product list for five seconds. The clock is an explicit
    parameter in milliseconds, and the failures of the cache and the database are
    given as flags. */
module Catalogue {
  import opened Tables

  const TtlMillis: int := 5000

  /** The cached list (the JSON round trip is taken as the identity) and the instant it expires. */
  datatype Entry = Entry(products: seq<Product>, expiresAt: int)

  /** Which of the three outside calls fail on this request. */
  datatype Faults = Faults(cacheReadFails: bool, productsReadFails: bool, cacheWriteFails: bool)

  /** The response and the cache afterwards. */
  datatype Served = Served(result: Result<seq<Product>>, cache: Option<Entry>)

  /** A GET of the key at `now`: the stored list until it expires, a miss afterwards. */
  function Get(cache: Option<Entry>, now: int): (hit: Option<seq<Product>>)
    ensures hit.Some? <==> cache.Some? && now < cache.value.expiresAt
    ensures hit.Some? ==> hit.value == cache.value.products
  {
    match cache
    case Some(e) => if now < e.expiresAt then Some(e.products) else None
    case None => None
  }

  /** The `GET /product` handler. `table` is what `db.Find` loads. */
  function Read(cache: Option<Entry>, table: seq<Product>, now: int, faults: Faults): (s: Served)
    ensures s.result.Ok? ==> s.result.value == table || Get(cache, now) == Some(s.result.value)
    ensures s.cache != cache ==> s.cache == Some(Entry(table, now + TtlMillis)) && s.result == Ok(table)
    ensures faults.cacheReadFails ==> s == Served(Err(CacheReadFailed), cache)
  {
    if faults.cacheReadFails then Served(Err(CacheReadFailed), cache)
    else match Get(cache, now)
      case Some(cached) => Served(Ok(cached), cache)
      case None =>
        if faults.productsReadFails then Served(Err(ProductsReadFailed), cache)
        else if faults.cacheWriteFails then Served(Err(CacheWriteFailed), cache)
        else Served(Ok(table), Some(Entry(table, now + TtlMillis)))
  }

  /** A hit serves the cached list verbatim, whatever the table now holds, and
      leaves the cache alone. */
  lemma {:induction false} HitIsServedVerbatim(cache: Option<Entry>, table: seq<Product>, now: int, faults: Faults)
    requires !faults.cacheReadFails && Get(cache, now).Some?
    ensures Read(cache, table, now, faults) == Served(Ok(cache.value.products), cache)
  {
  }

  /** A miss loads the table, stores it for five seconds and then returns it;
      when either the load or the store fails, no list is returned and the cache
      is as before. */
  lemma {:induction false} MissReadsThrough(cache: Option<Entry>, table: seq<Product>, now: int, faults: Faults)
    requires !faults.cacheReadFails && Get(cache, now).None?
    ensures var s := Read(cache, table, now, faults);
            && (s.result.Ok? <==> !faults.productsReadFails && !faults.cacheWriteFails)
            && (s.result.Ok? ==> s == Served(Ok(table), Some(Entry(table, now + TtlMillis))))
            && (s.result.Err? ==> s.cache == cache &&
                                  s.result.error == (if faults.productsReadFails then ProductsReadFailed
                                                     else CacheWriteFailed))
  {
  }

  /** Bounded staleness: within five seconds of a successful refill, every read that
      reaches the cache returns the list of that refill, even if the table has
      changed in between; from the fifth second on, a read reloads the table. */
  lemma {:induction false} StaleWithinTtl(cache: Option<Entry>, table: seq<Product>, t0: int, later: seq<Product>, t1: int,
                       f0: Faults, f1: Faults)
    requires Get(cache, t0).None? && Read(cache, table, t0, f0).result.Ok?
    requires t0 <= t1 && !f1.cacheReadFails
    ensures var s0 := Read(cache, table, t0, f0);
            var s1 := Read(s0.cache, later, t1, f1);
            && (t1 < t0 + TtlMillis ==> s1 == Served(Ok(table), s0.cache))
            && (t1 >= t0 + TtlMillis && !f1.productsReadFails && !f1.cacheWriteFails ==>
                  s1 == Served(Ok(later), Some(Entry(later, t1 + TtlMillis))))
  {
    MissReadsThrough(cache, table, t0, f0);
  }
}
