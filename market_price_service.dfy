/**
 * The market-price service (utils/market_price_service.py): a cache table of crawl
 * statistics keyed by (keyword, platform), the settled-auction prices read from the item
 * table, and the two ways a price report is produced — from a fresh cache row plus the
 * settled prices, or from a new crawl whose statistics are then written back.
 * The clock is the parameter `now` (seconds); the crawler is a function from keyword to prices.
 */
module MarketPriceService {
  import opened Wrappers
  import opened Domain
  import PriceAI
  import PriceCrawler

  // ---------------------------------------------------------------------------------------
  // The cache table
  // ---------------------------------------------------------------------------------------

  /** The columns of one cached crawl: the per-platform dict `get_cached_price` returns. */
  datatype CacheEntry = CacheEntry(
    avgPrice: Option<int>,
    minPrice: Option<int>,
    maxPrice: Option<int>,
    sampleCount: nat,
    crawledAt: int)

  /** One row of the cache table. */
  datatype CacheRow = CacheRow(keyword: string, platform: string, entry: CacheEntry)

  predicate HasKey(row: CacheRow, keyword: string, platform: string)
  {
    row.keyword == keyword && row.platform == platform
  }

  /** At most one row per (keyword, platform). */
  predicate KeysUnique(rows: seq<CacheRow>)
  {
    forall i, j :: 0 <= i < j < |rows| ==> !HasKey(rows[j], rows[i].keyword, rows[i].platform)
  }

  /** The table itself; the service's methods add and overwrite its rows in place. */
  class MarketPriceTable {
    var rows: seq<CacheRow>

    constructor(rows: seq<CacheRow>)
      ensures this.rows == rows
    {
      this.rows := rows;
    }
  }

  /** `.filter(keyword, platform).first()`: the position of the first row with that key. */
  function FirstRow(rows: seq<CacheRow>, keyword: string, platform: string): (r: Option<nat>)
    ensures r.Some? ==> r.value < |rows| && HasKey(rows[r.value], keyword, platform)
    ensures r.Some? ==> forall j :: 0 <= j < r.value ==> !HasKey(rows[j], keyword, platform)
    ensures r.None? ==> forall j :: 0 <= j < |rows| ==> !HasKey(rows[j], keyword, platform)
  {
    if rows == [] then None
    else if HasKey(rows[0], keyword, platform) then Some(0)
    else match FirstRow(rows[1..], keyword, platform)
      case None => None
      case Some(i) => Some(i + 1)
  }

  /** The row `_save_to_db` writes: the statistics and the crawl time. */
  function EntryOf(stats: PriceAI.PriceStats, now: int): CacheEntry
  {
    CacheEntry(stats.avgPrice, stats.minPrice, stats.maxPrice, stats.sampleCount, now)
  }

  /**
   * The upsert: the first row with the key is overwritten, or one row is appended when there
   * is none; every other row stays where it was.
   */
  function Upserted(rows: seq<CacheRow>, keyword: string, platform: string, entry: CacheEntry)
    : (r: seq<CacheRow>)
    ensures FirstRow(rows, keyword, platform).Some? ==> |r| == |rows|
    ensures FirstRow(rows, keyword, platform).None? ==> |r| == |rows| + 1
    ensures forall j :: 0 <= j < |rows| && !HasKey(rows[j], keyword, platform) ==> r[j] == rows[j]
    ensures exists j :: 0 <= j < |r| && r[j] == CacheRow(keyword, platform, entry)
    ensures forall j :: |rows| <= j < |r| ==> r[j] == CacheRow(keyword, platform, entry)
  {
    var row := CacheRow(keyword, platform, entry);
    match FirstRow(rows, keyword, platform)
    case Some(i) =>
      var r := rows[i := row];
      assert r[i] == row;
      r
    case None =>
      var r := rows + [row];
      assert r[|rows|] == row;
      r
  }

  /** The rows after `_save_to_db`: unchanged when there are no statistics or no samples. */
  function Saved(rows: seq<CacheRow>, keyword: string, platform: string,
                 stats: Option<PriceAI.PriceStats>, now: int): seq<CacheRow>
  {
    if stats.None? || stats.value.sampleCount == 0 then rows
    else Upserted(rows, keyword, platform, EntryOf(stats.value, now))
  }

  /** The upsert keeps at most one row per key. */
  lemma UpsertKeepsKeysUnique(rows: seq<CacheRow>, keyword: string, platform: string, entry: CacheEntry)
    requires KeysUnique(rows)
    ensures KeysUnique(Upserted(rows, keyword, platform, entry))
  {
    var r := Upserted(rows, keyword, platform, entry);
    match FirstRow(rows, keyword, platform)
    case Some(i) =>
      forall a, b | 0 <= a < b < |r| ensures !HasKey(r[b], r[a].keyword, r[a].platform) {
        if a != i && b != i {
          assert r[a] == rows[a] && r[b] == rows[b];
        } else if a == i {
          assert r[b] == rows[b] && !HasKey(rows[b], rows[i].keyword, rows[i].platform);
        } else {
          assert r[a] == rows[a] && !HasKey(rows[i], rows[a].keyword, rows[a].platform);
        }
      }
    case None =>
      forall a, b | 0 <= a < b < |r| ensures !HasKey(r[b], r[a].keyword, r[a].platform) {
        if b < |rows| {
          assert r[a] == rows[a] && r[b] == rows[b];
        } else {
          assert r[a] == rows[a] && !HasKey(rows[a], keyword, platform);
        }
      }
  }

  // ---------------------------------------------------------------------------------------
  // Reading the cache
  // ---------------------------------------------------------------------------------------

  /** A row the cache query returns: the keyword, crawled after the threshold. */
  predicate IsFresh(row: CacheRow, keyword: string, threshold: int)
  {
    row.keyword == keyword && row.entry.crawledAt > threshold
  }

  /** The cache query, in table order. */
  function FreshRows(rows: seq<CacheRow>, keyword: string, threshold: int): (r: seq<CacheRow>)
    ensures r == [] <==> forall i :: 0 <= i < |rows| ==> !IsFresh(rows[i], keyword, threshold)
    ensures forall i :: 0 <= i < |r| ==> IsFresh(r[i], keyword, threshold)
  {
    if rows == [] then []
    else
      var init := FreshRows(rows[..|rows| - 1], keyword, threshold);
      var last := rows[|rows| - 1];
      assert forall i :: 0 <= i < |rows| - 1 ==> rows[..|rows| - 1][i] == rows[i];
      if IsFresh(last, keyword, threshold) then init + [last] else init
  }

  /** The entry of the last of `records` from the given platform. */
  function LastFrom(records: seq<CacheRow>, platform: string): Option<CacheEntry>
  {
    if records == [] then None
    else if records[|records| - 1].platform == platform then Some(records[|records| - 1].entry)
    else LastFrom(records[..|records| - 1], platform)
  }

  /** A fresh row of the keyword from the given platform. */
  predicate IsFreshFrom(row: CacheRow, keyword: string, platform: string, threshold: int)
  {
    IsFresh(row, keyword, threshold) && row.platform == platform
  }

  /** The most recent fresh row of a platform, read in table order. */
  function LatestFresh(rows: seq<CacheRow>, keyword: string, platform: string, threshold: int)
    : (r: Option<CacheEntry>)
    ensures r.None? <==> forall i :: 0 <= i < |rows| ==> !IsFreshFrom(rows[i], keyword, platform, threshold)
  {
    if rows == [] then None
    else
      var last := rows[|rows| - 1];
      var init := rows[..|rows| - 1];
      assert forall i :: 0 <= i < |init| ==> init[i] == rows[i];
      if IsFreshFrom(last, keyword, platform, threshold) then Some(last.entry)
      else LatestFresh(init, keyword, platform, threshold)
  }

  /** The entry found is the one of a fresh row that no later fresh row of the platform overwrites. */
  lemma {:induction false} LatestFreshIsLast(rows: seq<CacheRow>, keyword: string, platform: string, threshold: int)
    returns (i: nat)
    requires LatestFresh(rows, keyword, platform, threshold).Some?
    ensures i < |rows| && IsFreshFrom(rows[i], keyword, platform, threshold)
    ensures rows[i].entry == LatestFresh(rows, keyword, platform, threshold).value
    ensures forall j :: i < j < |rows| ==> !IsFreshFrom(rows[j], keyword, platform, threshold)
  {
    var last := rows[|rows| - 1];
    if IsFreshFrom(last, keyword, platform, threshold) {
      i := |rows| - 1;
    } else {
      var init := rows[..|rows| - 1];
      i := LatestFreshIsLast(init, keyword, platform, threshold);
      assert init[i] == rows[i];
      assert forall j :: i < j < |init| ==> init[j] == rows[j];
    }
  }

  /** The loop over the query's rows finds the latest fresh row of each platform. */
  lemma {:induction false} LastFromFreshRows(rows: seq<CacheRow>, keyword: string, platform: string, threshold: int)
    ensures LastFrom(FreshRows(rows, keyword, threshold), platform) == LatestFresh(rows, keyword, platform, threshold)
  {
    if rows != [] {
      LastFromFreshRows(rows[..|rows| - 1], keyword, platform, threshold);
      var init := FreshRows(rows[..|rows| - 1], keyword, threshold);
      var last := rows[|rows| - 1];
      if IsFresh(last, keyword, threshold) {
        assert (init + [last])[..|init|] == init;
      }
    }
  }

  /** With one row per key, the latest fresh row of a key is that row. */
  lemma {:induction false} LatestFreshUnique(rows: seq<CacheRow>, keyword: string, platform: string,
                                             threshold: int, i: int)
    requires KeysUnique(rows)
    requires 0 <= i < |rows| && HasKey(rows[i], keyword, platform) && rows[i].entry.crawledAt > threshold
    ensures LatestFresh(rows, keyword, platform, threshold) == Some(rows[i].entry)
  {
    if i < |rows| - 1 {
      var init := rows[..|rows| - 1];
      assert !HasKey(rows[|rows| - 1], rows[i].keyword, rows[i].platform);
      assert init[i] == rows[i];
      LatestFreshUnique(init, keyword, platform, threshold, i);
    }
  }

  /** Statistics just saved are what the cache returns for that key while they are fresh. */
  lemma SaveThenRead(rows: seq<CacheRow>, keyword: string, platform: string,
                     stats: PriceAI.PriceStats, now: int, threshold: int)
    requires KeysUnique(rows)
    requires stats.sampleCount > 0 && now > threshold
    ensures LatestFresh(Saved(rows, keyword, platform, Some(stats), now), keyword, platform, threshold)
         == Some(EntryOf(stats, now))
  {
    var entry := EntryOf(stats, now);
    var r := Upserted(rows, keyword, platform, entry);
    UpsertKeepsKeysUnique(rows, keyword, platform, entry);
    var j :| 0 <= j < |r| && r[j] == CacheRow(keyword, platform, entry);
    LatestFreshUnique(r, keyword, platform, threshold, j);
  }

  /** The two platform slots of a cache hit. */
  datatype CachedPrice = CachedPrice(joongna: Option<CacheEntry>, daangn: Option<CacheEntry>)

  // ---------------------------------------------------------------------------------------
  // Settled auctions
  // ---------------------------------------------------------------------------------------

  /** ASCII lower case, the case folding `ilike` applies to Latin letters. */
  function Lower(s: string): (r: string)
    ensures |r| == |s|
    ensures forall i :: 0 <= i < |s| ==> !('A' <= r[i] <= 'Z')
    ensures forall i :: 0 <= i < |s| ==>
      if 'A' <= s[i] <= 'Z' then r[i] as int == s[i] as int + 32 else r[i] == s[i]
  {
    if s == [] then []
    else
      var c := s[0];
      [if 'A' <= c <= 'Z' then (c as int + 32) as char else c] + Lower(s[1..])
  }

  /** `name ilike '%keyword%'`. */
  predicate NameMatches(name: string, keyword: string)
  {
    PriceCrawler.ContainsFrom(Lower(name), Lower(keyword), 0)
  }

  /** An item `get_auction_prices` reports: settled, matching, recent and with a non-zero price. */
  predicate IsSettledSale(item: Item, keyword: string, threshold: int)
  {
    item.status == SUCCESS && NameMatches(item.name, keyword) && item.createdAt > threshold
    && item.currentPrice != 0
  }

  /** `get_auction_prices`: the settled prices, in table order. */
  function AuctionPrices(items: seq<Item>, keyword: string, threshold: int): (r: seq<int>)
    ensures |r| <= |items|
    ensures forall k :: 0 <= k < |r| ==> r[k] != 0
    ensures forall i :: 0 <= i < |items| && IsSettledSale(items[i], keyword, threshold) ==> items[i].currentPrice in r
    ensures (forall i :: 0 <= i < |items| ==> !IsSettledSale(items[i], keyword, threshold)) <==> r == []
  {
    if items == [] then []
    else
      var rest := AuctionPrices(items[1..], keyword, threshold);
      assert forall i :: 1 <= i < |items| ==> items[1..][i - 1] == items[i];
      if IsSettledSale(items[0], keyword, threshold) then [items[0].currentPrice] + rest else rest
  }

  /** `source` lists, in increasing order, items whose prices `prices` reports one by one. */
  predicate SoundSources(items: seq<Item>, prices: seq<int>, source: seq<nat>, keyword: string, threshold: int)
  {
    && |source| == |prices|
    && (forall k :: 0 <= k < |source| ==> source[k] < |items|)
    && (forall k :: 0 <= k < |source| ==>
          IsSettledSale(items[source[k]], keyword, threshold) && items[source[k]].currentPrice == prices[k])
    && (forall k, l :: 0 <= k < l < |source| ==> source[k] < source[l])
  }

  /** Every settled sale at index `from` or later is listed in `source`. */
  predicate CoversFrom(items: seq<Item>, source: seq<nat>, from: nat, keyword: string, threshold: int)
  {
    forall i :: from <= i < |items| && IsSettledSale(items[i], keyword, threshold) ==> i in source
  }

  /**
   * `source` matches the settled sales one to one, in table order: each reported price is the
   * price of its own settled sale, and every settled sale is reported once.
   */
  predicate SourcedBy(items: seq<Item>, prices: seq<int>, source: seq<nat>, keyword: string, threshold: int)
  {
    SoundSources(items, prices, source, keyword, threshold) && CoversFrom(items, source, 0, keyword, threshold)
  }

  /** The settled sales and the reported prices correspond one to one, in table order. */
  lemma {:induction false} AuctionPriceSources(items: seq<Item>, keyword: string, threshold: int)
    returns (source: seq<nat>)
    ensures SourcedBy(items, AuctionPrices(items, keyword, threshold), source, keyword, threshold)
  {
    if items == [] {
      source := [];
    } else {
      var rest := AuctionPriceSources(items[1..], keyword, threshold);
      var shifted := ShiftSources(items, AuctionPrices(items[1..], keyword, threshold), rest, keyword, threshold);
      if IsSettledSale(items[0], keyword, threshold) {
        source := ConsSource(items, AuctionPrices(items[1..], keyword, threshold), shifted, keyword, threshold);
      } else {
        source := shifted;
      }
    }
  }

  lemma ShiftSources(items: seq<Item>, prices: seq<int>, rest: seq<nat>, keyword: string, threshold: int)
    returns (shifted: seq<nat>)
    requires items != [] && SourcedBy(items[1..], prices, rest, keyword, threshold)
    ensures SoundSources(items, prices, shifted, keyword, threshold)
    ensures CoversFrom(items, shifted, 1, keyword, threshold)
    ensures forall k :: 0 <= k < |shifted| ==> shifted[k] > 0
  {
    shifted := seq(|rest|, k requires 0 <= k < |rest| => rest[k] + 1);
    assert forall k :: 0 <= k < |rest| ==> items[shifted[k]] == items[1..][rest[k]];
    ShiftCovers(items, rest, shifted, keyword, threshold);
  }

  lemma ShiftCovers(items: seq<Item>, rest: seq<nat>, shifted: seq<nat>, keyword: string, threshold: int)
    requires items != [] && CoversFrom(items[1..], rest, 0, keyword, threshold)
    requires |shifted| == |rest| && forall k :: 0 <= k < |rest| ==> shifted[k] == rest[k] + 1
    ensures CoversFrom(items, shifted, 1, keyword, threshold)
  {
    forall i | 1 <= i < |items| && IsSettledSale(items[i], keyword, threshold) ensures i in shifted {
      assert items[1..][i - 1] == items[i];
      assert i - 1 in rest;
      var k :| 0 <= k < |rest| && rest[k] == i - 1;
      assert shifted[k] == i;
    }
  }

  lemma ConsSource(items: seq<Item>, prices: seq<int>, shifted: seq<nat>, keyword: string, threshold: int)
    returns (source: seq<nat>)
    requires items != [] && IsSettledSale(items[0], keyword, threshold)
    requires SoundSources(items, prices, shifted, keyword, threshold)
    requires CoversFrom(items, shifted, 1, keyword, threshold)
    requires forall k :: 0 <= k < |shifted| ==> shifted[k] > 0
    ensures SourcedBy(items, [items[0].currentPrice] + prices, source, keyword, threshold)
  {
    source := [0] + shifted;
    var all := [items[0].currentPrice] + prices;
    forall k | 0 <= k < |source|
      ensures source[k] < |items| && IsSettledSale(items[source[k]], keyword, threshold)
      ensures items[source[k]].currentPrice == all[k]
    {
      if k > 0 {
        assert source[k] == shifted[k - 1] && all[k] == prices[k - 1];
      }
    }
    forall k, l | 0 <= k < l < |source| ensures source[k] < source[l] {
      assert source[l] == shifted[l - 1];
      if k > 0 {
        assert source[k] == shifted[k - 1];
      }
    }
    forall i | 0 <= i < |items| && IsSettledSale(items[i], keyword, threshold) ensures i in source {
      if i > 0 {
        assert i in shifted;
      }
    }
  }

  // ---------------------------------------------------------------------------------------
  // Fusing the data into a report
  // ---------------------------------------------------------------------------------------

  /** The crawl statistics in a report: none, computed now, or read from the cache. */
  datatype CrawlStats = NoCrawlStats | Computed(stats: PriceAI.PriceStats) | FromCache(entry: CacheEntry)

  /** The result dict of `get_or_crawl` and `crawl_and_save`. */
  datatype MarketReport = MarketReport(
    joongnaStats: CrawlStats,
    auctionStats: Option<PriceAI.PriceStats>,
    combinedStats: Option<PriceAI.PriceStats>,
    suggestedStartPrice: Option<int>,
    categoryRatio: Option<real>,
    fromCache: bool,
    finalKeyword: string,
    crawlCount: nat,
    auctionCount: nat,
    totalCount: nat)

  /** `[x] * n`. */
  function Replicate(x: int, n: nat): (r: seq<int>)
    ensures |r| == n && forall k :: 0 <= k < n ==> r[k] == x
  {
    if n == 0 then [] else [x] + Replicate(x, n - 1)
  }

  /** The cached average, weighted by its sample count, when it is present and non-zero. */
  function CachedSamples(joongna: Option<CacheEntry>): seq<int>
  {
    if joongna.Some? && joongna.value.avgPrice.Some? && joongna.value.avgPrice.value != 0
    then Replicate(joongna.value.avgPrice.value, joongna.value.sampleCount)
    else []
  }

  /** The prices fused on a cache hit: the weighted cached average, then the settled prices. */
  function CacheHitPrices(joongna: Option<CacheEntry>, auction: seq<int>): (r: seq<int>)
    ensures var n := |CachedSamples(joongna)|;
      && |r| == n + |auction|
      && (forall k :: 0 <= k < n ==> r[k] == joongna.value.avgPrice.value)
      && (forall k :: 0 <= k < |auction| ==> r[n + k] == auction[k])
      && (n > 0 <==> joongna.Some? && joongna.value.avgPrice.Some? && joongna.value.avgPrice.value != 0
                     && joongna.value.sampleCount > 0)
  {
    CachedSamples(joongna) + auction
  }

  /** Statistics of a list, or none for an empty one (the `if prices:` guards). */
  function StatsIfAny(prices: seq<int>): (r: Option<PriceAI.PriceStats>)
    ensures r.None? <==> prices == []
    ensures r.Some? ==> r.value.sampleCount == |PriceAI.RemoveOutliersIqr(prices).prices|
  {
    if prices == [] then None
    else
      Sample(prices);
      Some(PriceAI.RemoveOutliersIqr(prices).stats)
  }

  lemma Sample(prices: seq<int>)
    ensures PriceAI.RemoveOutliersIqr(prices).stats.sampleCount == |PriceAI.RemoveOutliersIqr(prices).prices|
  {
    var r := PriceAI.RemoveOutliersIqr(prices);
    assert r.stats.sampleCount == r.stats.(iqrFields := None).sampleCount;
  }

  /**
   * The cache-hit report, or None when there is nothing to fuse and the service crawls instead.
   * The call crashes when only a daangn row is cached and settled prices exist, which the
   * precondition excludes.
   */
  function CacheHitReport(joongna: Option<CacheEntry>, auction: seq<int>, keyword: string,
                          category: Option<Category>): (r: Option<MarketReport>)
    requires joongna.Some? || auction == []
    ensures r.None? <==> CacheHitPrices(joongna, auction) == []
    ensures r.Some? ==>
      var fused := CacheHitPrices(joongna, auction);
      && r.value.fromCache && r.value.finalKeyword == keyword
      && r.value.joongnaStats == FromCache(joongna.value)
      && r.value.totalCount == |fused|
      && r.value.crawlCount == joongna.value.sampleCount && r.value.auctionCount == |auction|
      && r.value.combinedStats == Some(PriceAI.RemoveOutliersIqr(fused).stats)
      && r.value.auctionStats == StatsIfAny(auction)
      && r.value.categoryRatio == Some(PriceAI.RatioFor(category))
    ensures r.Some? ==> r.value.combinedStats.Some? && r.value.combinedStats.value.avgPrice.Some?
    ensures r.Some? ==>
      r.value.suggestedStartPrice == Some(PriceAI.CalculateStartPrice(r.value.combinedStats.value.avgPrice.value, category))
  {
    var fused := CacheHitPrices(joongna, auction);
    if fused == [] then None
    else
      var combined := PriceAI.RemoveOutliersIqr(fused).stats;
      PriceAI.StatsPresent(fused);
      Some(MarketReport(FromCache(joongna.value), StatsIfAny(auction), Some(combined),
        Some(PriceAI.CalculateStartPrice(combined.avgPrice.value, category)),
        Some(PriceAI.RatioFor(category)), true, keyword,
        joongna.value.sampleCount, |auction|, |fused|))
  }

  /** The crawl statistics as `_save_to_db` receives them. */
  function SavedStats(s: CrawlStats): Option<PriceAI.PriceStats>
  {
    if s.Computed? then Some(s.stats) else None
  }

  /** The report `crawl_and_save` builds from the crawled and the settled prices. */
  function CrawlReport(crawled: seq<int>, finalKeyword: string, auction: seq<int>,
                       category: Option<Category>): (r: MarketReport)
    ensures r.crawlCount == |crawled| && r.auctionCount == |auction|
    ensures r.totalCount == r.crawlCount + r.auctionCount
    ensures !r.fromCache && r.finalKeyword == finalKeyword
    ensures r.totalCount == 0 ==>
      && r.joongnaStats == NoCrawlStats && r.auctionStats.None? && r.combinedStats.None?
      && r.suggestedStartPrice.None? && r.categoryRatio.None?
    ensures r.totalCount > 0 ==>
      && r.combinedStats == Some(PriceAI.RemoveOutliersIqr(crawled + auction).stats)
      && r.categoryRatio == Some(PriceAI.RatioFor(category))
      && SavedStats(r.joongnaStats) == StatsIfAny(crawled)
      && r.auctionStats == StatsIfAny(auction)
    ensures r.joongnaStats.Computed? || r.joongnaStats == NoCrawlStats
    ensures r.totalCount > 0 ==> r.combinedStats.Some? && r.combinedStats.value.avgPrice.Some?
    ensures r.totalCount > 0 ==>
      r.suggestedStartPrice == Some(PriceAI.CalculateStartPrice(r.combinedStats.value.avgPrice.value, category))
  {
    var all := crawled + auction;
    if |all| == 0 then
      MarketReport(NoCrawlStats, None, None, None, None, false, finalKeyword, |crawled|, |auction|, 0)
    else
      var combined := PriceAI.RemoveOutliersIqr(all).stats;
      PriceAI.StatsPresent(all);
      var joongnaStats := if crawled == [] then NoCrawlStats else Computed(StatsIfAny(crawled).value);
      MarketReport(joongnaStats, StatsIfAny(auction), Some(combined),
        Some(PriceAI.CalculateStartPrice(combined.avgPrice.value, category)),
        Some(PriceAI.RatioFor(category)), false, finalKeyword, |crawled|, |auction|, |all|)
  }

  /** An empty crawl writes nothing to the cache. */
  lemma EmptyCrawlSavesNothing(rows: seq<CacheRow>, finalKeyword: string, auction: seq<int>,
                               category: Option<Category>, now: int)
    ensures Saved(rows, finalKeyword, "joongna", SavedStats(CrawlReport([], finalKeyword, auction, category).joongnaStats), now)
         == rows
  {
  }

  // ---------------------------------------------------------------------------------------
  // The service
  // ---------------------------------------------------------------------------------------

  const DefaultCacheHours: int := 24
  const DefaultAuctionDays: int := 30
  /** The `min_samples` the service asks of the crawler. */
  const MinSamples: int := 3

  class MarketPrice {
    const cacheHours: int
    const auctionDays: int

    constructor(cacheHours: int, auctionDays: int)
      ensures this.cacheHours == cacheHours && this.auctionDays == auctionDays
    {
      this.cacheHours := cacheHours;
      this.auctionDays := auctionDays;
    }

    /** Rows crawled after this instant are fresh. */
    function CacheThreshold(now: int): int
    {
      now - cacheHours * HOUR
    }

    /** Items created after this instant count as recent sales. */
    function AuctionThreshold(now: int): int
    {
      now - auctionDays * DAY
    }

    /** `get_cached_price`: None exactly when no fresh row has the keyword; else the latest fresh row per platform. */
    method GetCachedPrice(db: MarketPriceTable, keyword: string, now: int) returns (cached: Option<CachedPrice>)
      ensures cached.None? <==>
        forall i :: 0 <= i < |db.rows| ==> !IsFresh(db.rows[i], keyword, CacheThreshold(now))
      ensures cached.Some? ==>
        && cached.value.joongna == LatestFresh(db.rows, keyword, "joongna", CacheThreshold(now))
        && cached.value.daangn == LatestFresh(db.rows, keyword, "daangn", CacheThreshold(now))
    {
      var threshold := CacheThreshold(now);
      var records := FreshRows(db.rows, keyword, threshold);
      if records == [] {
        return None;
      }
      var joongna: Option<CacheEntry> := None;
      var daangn: Option<CacheEntry> := None;
      var i := 0;
      while i < |records|
        invariant 0 <= i <= |records|
        invariant joongna == LastFrom(records[..i], "joongna")
        invariant daangn == LastFrom(records[..i], "daangn")
      {
        var record := records[i];
        assert records[..i + 1][..i] == records[..i];
        if record.platform == "joongna" {
          joongna := Some(record.entry);
        } else if record.platform == "daangn" {
          daangn := Some(record.entry);
        }
        i := i + 1;
      }
      assert records[..i] == records;
      LastFromFreshRows(db.rows, keyword, "joongna", threshold);
      LastFromFreshRows(db.rows, keyword, "daangn", threshold);
      cached := Some(CachedPrice(joongna, daangn));
    }

    /** `_save_to_db`: skip empty statistics; otherwise overwrite the key's row or add one. */
    method SaveToDb(db: MarketPriceTable, keyword: string, platform: string,
                    stats: Option<PriceAI.PriceStats>, now: int)
      modifies db
      ensures db.rows == Saved(old(db.rows), keyword, platform, stats, now)
    {
      if stats.None? || stats.value.sampleCount == 0 {
        return;
      }
      var entry := EntryOf(stats.value, now);
      var existing := FirstRow(db.rows, keyword, platform);
      if existing.Some? {
        db.rows := db.rows[existing.value := CacheRow(keyword, platform, entry)];
      } else {
        db.rows := db.rows + [CacheRow(keyword, platform, entry)];
      }
    }

    /**
     * `crawl_and_save`: crawl with keyword fallback, fuse with the settled prices under the
     * keyword that succeeded, and cache only the crawl statistics, under that keyword.
     */
    method CrawlAndSave(db: MarketPriceTable, items: seq<Item>, keyword: string,
                        category: Option<Category>, now: int, crawl: string -> seq<int>)
      returns (report: MarketReport)
      requires keyword != ""
      modifies db
      ensures var (crawled, finalKeyword) :=
                PriceCrawler.Fallback(PriceCrawler.Attempts(keyword), keyword, MinSamples, crawl);
        && report == CrawlReport(crawled, finalKeyword, AuctionPrices(items, finalKeyword, AuctionThreshold(now)), category)
        && db.rows == Saved(old(db.rows), finalKeyword, "joongna", SavedStats(report.joongnaStats), now)
    {
      var crawled, finalKeyword := PriceCrawler.CrawlWithFallback(keyword, MinSamples, crawl);
      var auction := AuctionPrices(items, finalKeyword, AuctionThreshold(now));
      report := CrawlReport(crawled, finalKeyword, auction, category);
      if report.totalCount == 0 {
        return;
      }
      SaveToDb(db, finalKeyword, "joongna", SavedStats(report.joongnaStats), now);
    }

    /** The cache-hit path crashes: only a daangn row is fresh, and settled prices exist. */
    predicate CacheHitCrashes(rows: seq<CacheRow>, items: seq<Item>, keyword: string, now: int)
    {
      && (exists i :: 0 <= i < |rows| && IsFresh(rows[i], keyword, CacheThreshold(now)))
      && LatestFresh(rows, keyword, "joongna", CacheThreshold(now)).None?
      && AuctionPrices(items, keyword, AuctionThreshold(now)) != []
    }

    /**
     * `get_or_crawl`: a fresh cache row plus the settled prices when that gives any price,
     * and otherwise the crawl path, marked as not from the cache.
     */
    method GetOrCrawl(db: MarketPriceTable, items: seq<Item>, keyword: string,
                      category: Option<Category>, now: int, crawl: string -> seq<int>)
      returns (report: MarketReport)
      requires keyword != ""
      requires !CacheHitCrashes(db.rows, items, keyword, now)
      modifies db
      ensures var joongna := LatestFresh(old(db.rows), keyword, "joongna", CacheThreshold(now));
        var auction := AuctionPrices(items, keyword, AuctionThreshold(now));
        var hit := (exists i :: 0 <= i < |old(db.rows)| && IsFresh(old(db.rows)[i], keyword, CacheThreshold(now)))
                   && CacheHitPrices(joongna, auction) != [];
        && (report.fromCache <==> hit)
        && (hit ==> db.rows == old(db.rows) && Some(report) == CacheHitReport(joongna, auction, keyword, category))
        && (!hit ==>
              var (crawled, finalKeyword) :=
                PriceCrawler.Fallback(PriceCrawler.Attempts(keyword), keyword, MinSamples, crawl);
              && report == CrawlReport(crawled, finalKeyword, AuctionPrices(items, finalKeyword, AuctionThreshold(now)), category)
              && db.rows == Saved(old(db.rows), finalKeyword, "joongna", SavedStats(report.joongnaStats), now))
    {
      var cached := GetCachedPrice(db, keyword, now);
      if cached.Some? {
        var auction := AuctionPrices(items, keyword, AuctionThreshold(now));
        var fromCache := CacheHitReport(cached.value.joongna, auction, keyword, category);
        if fromCache.Some? {
          return fromCache.value;
        }
      }
      report := CrawlAndSave(db, items, keyword, category, now, crawl);
      report := report.(fromCache := false);
    }
  }
}
