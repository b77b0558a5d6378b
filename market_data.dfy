/** The market-data cache policy: one cached snapshot with its write time, served while fresher
    than a time-to-live, refreshed from the market API otherwise, and served stale when the API
    fails. The document store is a single optional slot; the snapshot's contents are opaque. */
module MarketData {
  import opened Wrappers

  /** One minute for requests from active users. */
  const ActiveTtl := 60 * 1000
  /** One hour for scheduled refreshes. */
  const ScheduledTtl := 60 * 60 * 1000

  /** The stored cache document. */
  datatype CacheEntry<D> = CacheEntry(data: D, timestamp: int)

  /** What a cache read hands back: the data, its write time and its age at the time of reading. */
  datatype Cached<D> = Cached(data: D, timestamp: int, age: int)

  /** The outcomes of everything `getMarketData` depends on besides the slot: clock readings,
      whether the store reads and writes succeed, and what the market API returns. */
  datatype Env<D> = Env(
    readNow: int, readOk: bool,
    fetched: Result<D, string>,
    saveNow: int, writeOk: bool,
    retryNow: int, retryReadOk: bool)

  function Ttl(isScheduled: bool): (ttl: nat)
    ensures ttl == if isScheduled then 3600000 else 60000
  {
    if isScheduled then ScheduledTtl else ActiveTtl
  }

  /** `getCachedMarketData`: nothing when the slot is empty or the read fails. */
  function CacheRead<D>(slot: Option<CacheEntry<D>>, now: int, readOk: bool): (r: Option<Cached<D>>)
    ensures r.None? <==> !readOk || slot.None?
    ensures r.Some? ==> r.value.data == slot.value.data && r.value.timestamp == slot.value.timestamp
                        && r.value.age == now - slot.value.timestamp
  {
    if !readOk then None
    else match slot
      case None => None
      case Some(entry) => Some(Cached(entry.data, entry.timestamp, now - entry.timestamp))
  }

  /** `saveCachedMarketData`: overwrites the slot, or leaves it as it was when the write fails. */
  function CacheWrite<D>(slot: Option<CacheEntry<D>>, data: D, now: int, writeOk: bool): Option<CacheEntry<D>>
  {
    if writeOk then Some(CacheEntry(data, now)) else slot
  }

  /** The whole of `getMarketData`: the value it returns (or the error it throws) and the slot
      it leaves behind. */
  function MarketDataOutcome<D>(slot: Option<CacheEntry<D>>, isScheduled: bool, env: Env<D>): (Result<D, string>, Option<CacheEntry<D>>)
  {
    var cached := CacheRead(slot, env.readNow, env.readOk);
    if cached.Some? && cached.value.age < Ttl(isScheduled) then (Ok(cached.value.data), slot)
    else match env.fetched
      case Ok(newData) => (Ok(newData), CacheWrite(slot, newData, env.saveNow, env.writeOk))
      case Err(message) =>
        var again := CacheRead(slot, env.retryNow, env.retryReadOk);
        if again.Some? then (Ok(again.value.data), slot) else (Err(message), slot)
  }

  /** The cache document store holding the one `marketData/latest` slot. */
  class MarketCache<D> {
    var slot: Option<CacheEntry<D>>

    constructor ()
      ensures slot.None?
    {
      slot := None;
    }

    method GetCachedMarketData(now: int, readOk: bool) returns (cached: Option<Cached<D>>)
      ensures cached == CacheRead(slot, now, readOk)
    {
      if !readOk {
        return None;
      }
      if slot.None? {
        return None;
      }
      var entry := slot.value;
      var age := now - entry.timestamp;
      cached := Some(Cached(entry.data, entry.timestamp, age));
    }

    /** A failed write is swallowed. */
    method SaveCachedMarketData(data: D, now: int, writeOk: bool)
      modifies this
      ensures slot == CacheWrite(old(slot), data, now, writeOk)
    {
      if writeOk {
        slot := Some(CacheEntry(data, now));
      }
    }

    method GetMarketData(isScheduled: bool, env: Env<D>) returns (r: Result<D, string>)
      modifies this
      ensures (r, slot) == MarketDataOutcome(old(slot), isScheduled, env)
    {
      var cached := GetCachedMarketData(env.readNow, env.readOk);
      var cacheTtl := if isScheduled then ScheduledTtl else ActiveTtl;
      if cached.Some? && cached.value.age < cacheTtl {
        return Ok(cached.value.data);
      }
      match env.fetched {
        case Ok(newData) =>
          SaveCachedMarketData(newData, env.saveNow, env.writeOk);
          return Ok(newData);
        case Err(message) =>
          var again := GetCachedMarketData(env.retryNow, env.retryReadOk);
          if again.Some? {
            return Ok(again.value.data);
          }
          return Err(message);
      }
    }
  }

  /** A readable entry younger than the TTL is served as it is: the API result and the store's
      write outcome play no part, and the slot is untouched. */
  lemma FreshEntryIsServed<D>(entry: CacheEntry<D>, isScheduled: bool, env: Env<D>)
    requires env.readOk && env.readNow - entry.timestamp < Ttl(isScheduled)
    ensures MarketDataOutcome(Some(entry), isScheduled, env) == (Ok(entry.data), Some(entry))
  {
  }

  /** An entry exactly as old as the TTL is stale: new data is fetched and returned. */
  lemma EntryAtTtlIsStale<D>(entry: CacheEntry<D>, isScheduled: bool, env: Env<D>, newData: D)
    requires env.readOk && env.readNow - entry.timestamp == Ttl(isScheduled)
    requires env.fetched == Ok(newData)
    ensures MarketDataOutcome(Some(entry), isScheduled, env).0 == Ok(newData)
  {
  }

  /** On a miss or a stale entry the fetched data is returned and written back with the write's
      own time, unless the write fails. */
  lemma FetchedDataIsWrittenBack<D>(slot: Option<CacheEntry<D>>, isScheduled: bool, env: Env<D>, newData: D)
    requires !env.readOk || slot.None? || env.readNow - slot.value.timestamp >= Ttl(isScheduled)
    requires env.fetched == Ok(newData)
    ensures MarketDataOutcome(slot, isScheduled, env)
            == (Ok(newData), if env.writeOk then Some(CacheEntry(newData, env.saveNow)) else slot)
  {
  }

  /** Whether the cache write succeeds never changes what the caller gets. */
  lemma WriteOutcomeIsInvisible<D>(slot: Option<CacheEntry<D>>, isScheduled: bool, env: Env<D>)
    ensures MarketDataOutcome(slot, isScheduled, env).0
            == MarketDataOutcome(slot, isScheduled, env.(writeOk := !env.writeOk)).0
  {
  }

  /** When the API fails, a readable entry is served whatever its age; with none the API's error
      reaches the caller. The slot is left as it was either way. */
  lemma FailedFetchFallsBack<D>(slot: Option<CacheEntry<D>>, isScheduled: bool, env: Env<D>, message: string)
    requires CacheRead(slot, env.readNow, env.readOk).None?
          || CacheRead(slot, env.readNow, env.readOk).value.age >= Ttl(isScheduled)
    requires env.fetched == Err(message)
    ensures slot.Some? && env.retryReadOk ==> MarketDataOutcome(slot, isScheduled, env) == (Ok(slot.value.data), slot)
    ensures slot.None? || !env.retryReadOk ==> MarketDataOutcome(slot, isScheduled, env) == (Err(message), slot)
  {
  }

  /** A scheduled refresh serves what it may: an entry fresh enough for active users is fresh enough for it too. */
  lemma ActiveFreshIsScheduledFresh<D>(entry: CacheEntry<D>, env: Env<D>)
    requires env.readOk && env.readNow - entry.timestamp < Ttl(false)
    ensures MarketDataOutcome(Some(entry), true, env) == MarketDataOutcome(Some(entry), false, env)
  {
  }

  /** Two calls in a row on the store: after a successful write-back, a second call inside the
      TTL of the write returns the same data without using the API. */
  method RepeatedCallServesCache<D>(cache: MarketCache<D>, isScheduled: bool, first: Env<D>, second: Env<D>, newData: D)
    returns (r1: Result<D, string>, r2: Result<D, string>)
    modifies cache
    requires !first.readOk || cache.slot.None? || first.readNow - cache.slot.value.timestamp >= Ttl(isScheduled)
    requires first.fetched == Ok(newData) && first.writeOk
    requires second.readOk && second.readNow - first.saveNow < Ttl(isScheduled)
    ensures r1 == Ok(newData) && r2 == Ok(newData)
    ensures cache.slot == Some(CacheEntry(newData, first.saveNow))
  {
    r1 := cache.GetMarketData(isScheduled, first);
    FetchedDataIsWrittenBack(old(cache.slot), isScheduled, first, newData);
    r2 := cache.GetMarketData(isScheduled, second);
    FreshEntryIsServed(CacheEntry(newData, first.saveNow), isScheduled, second);
  }
}
