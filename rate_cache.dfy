/** Price selection for buying and selling, and the per-pair rate caches in
    front of it. Each cache keeps a rate per pair for a fixed time to live; a
    lookup can be bypassed with `refresh`, and every recomputed rate is written
    back. Times are whole seconds of a monotonic clock, passed in as `now`. */
module Pricing {
  import opened Types

  /** Time to live of a cached rate, in seconds. */
  const CacheTtl: int := 5

  datatype CacheEntry = CacheEntry(rate: real, storedAt: int)

  /** A cache lookup: the stored rate while it is younger than the time to
      live, nothing once it has expired or was never stored. */
  function CachedRate(entries: map<string, CacheEntry>, pair: string, now: int): (r: Option<real>)
    ensures r.Some? ==> pair in entries && r.value == entries[pair].rate
    ensures pair in entries && entries[pair].storedAt <= now < entries[pair].storedAt + CacheTtl ==> r.Some?
    ensures pair !in entries || now >= entries[pair].storedAt + CacheTtl ==> r.None?
  {
    if pair in entries && now < entries[pair].storedAt + CacheTtl then Some(entries[pair].rate) else None
  }

  /** A rate cache keyed by pair. */
  class RateCache {
    var entries: map<string, CacheEntry>

    constructor ()
      ensures entries == map[]
    {
      entries := map[];
    }

    /** cache.get(pair). */
    method Get(pair: string, now: int) returns (r: Option<real>)
      ensures r == CachedRate(entries, pair, now)
    {
      r := CachedRate(entries, pair, now);
    }

    /** cache[pair] = rate. */
    method Put(pair: string, rate: real, now: int)
      modifies this
      ensures entries == old(entries)[pair := CacheEntry(rate, now)]
    {
      entries := entries[pair := CacheEntry(rate, now)];
    }
  }

  /** A rate written at `now` is served for the whole time to live, and not
      after it. */
  lemma StoredRateServed(entries: map<string, CacheEntry>, pair: string, rate: real, now: int, later: int)
    requires now <= later
    ensures CachedRate(entries[pair := CacheEntry(rate, now)], pair, later)
            == if later < now + CacheTtl then Some(rate) else None
  {
  }

  /** Writing one pair's rate leaves every other pair's lookup as it was. */
  lemma OtherPairsUndisturbed(entries: map<string, CacheEntry>, pair: string, rate: real, now: int,
                              other: string, later: int)
    requires other != pair
    ensures CachedRate(entries[pair := CacheEntry(rate, now)], other, later) == CachedRate(entries, other, later)
  {
  }

  /** get_buy_rate's ticker rule: the ask when it is below the last price,
      otherwise the ask moved towards the last price by the configured
      balance. With a balance between 0 and 1 the rate lies between the last
      price and the ask; balance 0 is the ask, balance 1 the last price. */
  function TickerBuyRate(ask: real, last: real, balance: real): (r: real)
    ensures ask < last ==> r == ask
    ensures ask >= last && 0.0 <= balance <= 1.0 ==> last <= r <= ask
    ensures ask >= last && balance == 0.0 ==> r == ask
    ensures ask >= last && balance == 1.0 ==> r == last
  {
    if ask < last then ask
    else
      if 0.0 <= balance <= 1.0 then
        BlendBetween(ask, last, balance);
        ask + balance * (last - ask)
      else ask + balance * (last - ask)
  }

  /** Moving the ask towards a lower last price by a share between 0 and 1 of
      the gap lands between the two. */
  lemma BlendBetween(ask: real, last: real, share: real)
    requires ask >= last && 0.0 <= share <= 1.0
    ensures last <= ask + share * (last - ask) <= ask
  {
    var gap := ask - last;
    assert share * (last - ask) == -(share * gap);
    assert share * gap >= 0.0;
    assert share * gap + (1.0 - share) * gap == gap;
    assert (1.0 - share) * gap >= 0.0;
  }

  /** Where get_buy_rate takes its price from: the bid at depth `top`
      (1-based) of the order book, or the ticker's ask and last price blended
      by `balance`. */
  datatype BuySource = BuyOrderBook(bids: seq<real>, top: int) | BuyTicker(ask: real, last: real, balance: real)

  predicate ValidBuySource(src: BuySource)
  {
    src.BuyOrderBook? ==> 1 <= src.top <= |src.bids|
  }

  /** The freshly computed buy rate. It never exceeds the ask on the ticker
      path (for a balance between 0 and 1), and is the bid at depth `top`
      (1-based) on the order-book path. */
  function BuyRate(src: BuySource): (r: real)
    requires ValidBuySource(src)
    ensures src.BuyTicker? && 0.0 <= src.balance <= 1.0 ==>
              Min(src.ask, src.last) <= r <= src.ask
    ensures src.BuyOrderBook? ==> r == src.bids[src.top - 1] && r in src.bids
  {
    match src
    case BuyOrderBook(bids, top) => bids[top - 1]
    case BuyTicker(ask, last, balance) => TickerBuyRate(ask, last, balance)
  }

  /** Where get_sell_rate takes its price from: the best ask of the order
      book, or the ticker's ask. */
  datatype SellSource = SellOrderBook(asks: seq<real>) | SellTicker(ask: real)

  predicate ValidSellSource(src: SellSource)
  {
    src.SellOrderBook? ==> |src.asks| >= 1
  }

  function SellRate(src: SellSource): (r: real)
    requires ValidSellSource(src)
    ensures src.SellOrderBook? ==> r == src.asks[0]
    ensures src.SellTicker? ==> r == src.ask
  {
    match src
    case SellOrderBook(asks) => asks[0]
    case SellTicker(ask) => ask
  }

  /** Whether a lookup is answered from the cache: the cache may be used and
      holds a live rate that is not zero (a zero rate reads as a miss). */
  predicate Hit(entries: map<string, CacheEntry>, pair: string, refresh: bool, now: int)
  {
    !refresh && CachedRate(entries, pair, now).Some? && CachedRate(entries, pair, now).value != 0.0
  }

  /** What a rate lookup returns: the cached rate on a hit, otherwise the
      freshly computed one. */
  function LookupOrCompute(entries: map<string, CacheEntry>, pair: string, refresh: bool, now: int,
                           computed: real): real
  {
    if Hit(entries, pair, refresh, now) then CachedRate(entries, pair, now).value else computed
  }

  /** get_buy_rate: a cache hit is returned as is; otherwise the rate is
      computed from the configured source and written to the cache. */
  method GetBuyRate(cache: RateCache, pair: string, refresh: bool, now: int, src: BuySource)
    returns (rate: real)
    requires ValidBuySource(src)
    modifies cache
    ensures rate == LookupOrCompute(old(cache.entries), pair, refresh, now, BuyRate(src))
    ensures cache.entries == if Hit(old(cache.entries), pair, refresh, now) then old(cache.entries)
                             else old(cache.entries)[pair := CacheEntry(rate, now)]
  {
    if !refresh {
      var cached := cache.Get(pair, now);
      if cached.Some? && cached.value != 0.0 {
        return cached.value;
      }
    }
    rate := BuyRate(src);
    cache.Put(pair, rate, now);
  }

  /** get_sell_rate: the same caching discipline over the sell source. */
  method GetSellRate(cache: RateCache, pair: string, refresh: bool, now: int, src: SellSource)
    returns (rate: real)
    requires ValidSellSource(src)
    modifies cache
    ensures rate == LookupOrCompute(old(cache.entries), pair, refresh, now, SellRate(src))
    ensures cache.entries == if Hit(old(cache.entries), pair, refresh, now) then old(cache.entries)
                             else old(cache.entries)[pair := CacheEntry(rate, now)]
  {
    if !refresh {
      var cached := cache.Get(pair, now);
      if cached.Some? && cached.value != 0.0 {
        return cached.value;
      }
    }
    rate := SellRate(src);
    cache.Put(pair, rate, now);
  }

  /** A non-zero rate computed on a refresh is what a lookup without refresh
      returns within the time to live, whatever the source says by then. */
  lemma RefreshedRateIsServed(entries: map<string, CacheEntry>, pair: string, rate: real, now: int,
                              later: int, computed: real)
    requires rate != 0.0 && now <= later < now + CacheTtl
    ensures LookupOrCompute(entries[pair := CacheEntry(rate, now)], pair, false, later, computed) == rate
  {
    StoredRateServed(entries, pair, rate, now, later);
  }

  /** A cached zero rate counts as a miss: the lookup recomputes. */
  lemma ZeroRateNotServed(entries: map<string, CacheEntry>, pair: string, now: int, computed: real)
    requires pair in entries && entries[pair].rate == 0.0
    ensures LookupOrCompute(entries, pair, false, now, computed) == computed
  {
  }

  /** Two consecutive buy-rate lookups for a pair within the time to live: the
      second one is answered from the cache with the first one's rate. */
  method BuyRateCachedWithinTtl(cache: RateCache, pair: string, now: int, later: int,
                                src1: BuySource, src2: BuySource)
    returns (first: real, second: real)
    requires ValidBuySource(src1) && ValidBuySource(src2)
    requires now <= later < now + CacheTtl
    modifies cache
    ensures first == BuyRate(src1)
    ensures first != 0.0 ==> second == first
  {
    first := GetBuyRate(cache, pair, true, now, src1);
    second := GetBuyRate(cache, pair, false, later, src2);
    if first != 0.0 {
      RefreshedRateIsServed(old(cache.entries), pair, first, now, later, BuyRate(src2));
    }
  }
}
