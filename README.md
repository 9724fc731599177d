# Auction intelligence layer, modelled in Dafny

This project models the decision logic of an auction service's "intelligence layer". It has
two independent pipelines:

- **Recommendations** (`Recommender`, with `Profiles` and `Ranking`). This is user-based
  collaborative filtering.
  - Every user gets a category-frequency profile built from the items they bid on and the
    items on their wishlist.
  - The profiles become a feature matrix with sorted category columns.
  - The nearest users come from a row of a similarity matrix, with the target's own score
    forced to 0.
  - Candidates are the neighbours' items, counted and with the target's own items removed.
    The 2n most frequent are checked for availability and cut to n.
  - A popularity fallback tops the list up, without duplicates and up to n rows.
- **Market price** (`PriceAI`, `PriceCrawler`, `MarketPriceService`):
  - IQR outlier removal with numpy's linear-interpolation quartiles, the summary statistics,
    and the suggested start price (the average times a category ratio, rounded to a multiple
    of 1000).
  - The listing-price text parser for the forms `만원`, `만`, `원` and bare digits.
  - Keyword shortening and the crawl-retry loop.
  - The market-price service: a cache table keyed by (keyword, platform) with a freshness
    window, the settled-auction prices read from the item table, cache-hit fusion, crawl-path
    fusion and the cache upsert.

The database snapshot is given as sequences, maps and one mutable table object. The clock is
an integer `now` in seconds. The similarity matrix is an input whose values are left
abstract, and only its N × N shape is assumed. The browser crawl is a function from keyword
to a list of prices. Floating-point quantities (quartiles, fences, ratios, means) are exact
`real`s. Python's `int()` (truncation toward zero) and `round()` (half to even) are written
out.

Files:

- `wrappers.dfy`: `Option`, `Min`, `Distinct`, `PickFrom`.
- `domain.dfy`: the categories, items, bids, wishlist rows and recommendation records.
- `ranking.dfy`: top-k selection under a ranking whose ties may fall in any order. This
  models `argsort`, `Counter.most_common` and `ORDER BY … LIMIT`.
- `profiles.dfy`: the specification functions for profiles, sorted columns and position maps.
- `recommender.dfy`: the class `AuctionRecommender`.
- `price_ai.dfy`, `price_crawler.dfy` and `market_price_service.dfy`: the three price modules.

Where the comments in `utils/recommender.py` promise more than its code does, the model follows
the code:

- The comments at lines 161 and 166 say the mask excludes the target from its own neighbours.
  The code only sets the target's similarity to 0, so the target can still be listed on ties.
  It always is listed when there are no more users than requested. `GetSimilarUsers` proves
  that case.
- The comment at line 196 sends a user without similar users to the popularity list. In the
  code, a user with no usable history is in the similarity matrix like everyone else and still
  gets neighbours, even when every similarity is 0. The fallback happens only when the target
  is unknown, when `n_users` is 0, or when no candidate remains.
- `argsort` at line 167 breaks no ties, so the model leaves the order of tied users open.
- `MarketPriceDB` is imported by the service but is not declared in `models/db_models.py`.
  `MarketPriceDB` is not part of this model. Its table is modelled from the way the service
  reads and writes it: keyword, platform, the statistics and `crawled_at`.

## Model

| member | source | states |
|---|---|---|
| Profiles.BidItemsOfIff | utils/recommender.py:54-62 | an item is in a user's bid set iff some transaction of that buyer names it |
| Profiles.LikedItemsOfIff | utils/recommender.py:57-67 | an item is in a user's liked set iff some wishlist row of that user with the liked flag on names it |
| Profiles.RepeatedBidAddsNothing | utils/recommender.py:60-62 | bidding again on an item already bid on leaves every bid set unchanged (the bid sources are sets) |
| Profiles.ItemIndex | utils/recommender.py:51 | the id index holds exactly the ids of the item rows, and each id maps to a row with that id |
| Profiles.ProfileCountUnion | utils/recommender.py:72-89 | a category's count is the number of distinct interacted items of that category, plus one more for each item both bid on and liked |
| Profiles.ProfileCountBound | utils/recommender.py:76-87 | only items present in the item map count, so no entry exceeds twice the number of known items |
| Profiles.CategoryItemsAdd | utils/recommender.py:77-80 | counting one more id raises its category's count by one when the item is known, and changes nothing otherwise |
| Profiles.CategoryOrderAdjacent | models/enums.py:3-21 | the seventeen category names, listed in order, strictly ascend in code-point order |
| Profiles.CategoryOrderComplete | models/enums.py:3-21 | every category is in the ordered list |
| Profiles.SortedDistinct | utils/recommender.py:106 | a list in strictly ascending name order has no repeats |
| Profiles.LexLessTransitive | utils/recommender.py:106 | Python's string order `<` is transitive |
| Profiles.FilterIn | utils/recommender.py:106 | keeping the elements of a set, in order, yields exactly the common elements |
| Profiles.FilterInSorted | utils/recommender.py:106 | keeping elements of a sorted list keeps it sorted |
| Profiles.SortedColumnsSpec | utils/recommender.py:101-106 | the feature columns are exactly the categories seen in any profile, in strictly ascending order, without repeats |
| Profiles.PositionMap | utils/recommender.py:106 | the enumerate dict holds exactly the list's elements, and each maps to a position holding it |
| Profiles.PositionMapDistinct | utils/recommender.py:137 | without repeats, `user_idx_map[user_id_list[i]] == i` for every row i |
| Ranking.SelectTop | utils/recommender.py:167-170 | the result is a best-first list of `min(k, pool size)` distinct pool elements, and nothing left out ranks above anything listed |
| Ranking.PickBest | utils/recommender.py:167 | a total ranking has a best element in any non-empty pool |
| Ranking.TopPrefix | utils/recommender.py:304-320 | the first m of a top-k list form a top-m list (`LIMIT 2n` followed by `[:n]`) |
| Ranking.TopCoversPool | utils/recommender.py:170 | when k is at least the pool size, a top-k list lists the whole pool |
| Recommender.ItemIndexOfMember | utils/recommender.py:51 | with distinct primary keys, the index returns each row itself |
| Recommender.DistinctRowsDistinctIds | utils/recommender.py:233-237 | distinct rows of a table with distinct keys have distinct ids |
| Recommender.AddCategoryCounts | utils/recommender.py:77-80 | the loop adds each id's category count to the profile, and counts stay positive |
| Recommender.EmbedProfile | utils/recommender.py:114-120 | the vector has one entry per column, and entry j is the profile's count for column j (0 when absent) |
| Recommender.CandidateCountIsPairCount | utils/recommender.py:204-216 | a candidate's count is the number of (neighbour, bid or liked source) pairs whose set contains it |
| Recommender.SourcesSplit | utils/recommender.py:205-209 | the pairs for all neighbours are those of the earlier neighbours plus the last neighbour's |
| Recommender.CollectCandidates | utils/recommender.py:204-216 | the loop's Counter equals the neighbour counts |
| Recommender.RemoveInteracted | utils/recommender.py:219-220 | after the pops, every interacted item has count 0 and every other item keeps its count |
| Recommender.AvailableItems | utils/recommender.py:233-237 | every row returned is a catalogue row with a requested id, BIDDING, and ending after now; distinct keys stay distinct |
| Recommender.AvailableComplete | utils/recommender.py:233-237 | conversely, every catalogue row with a requested id, BIDDING and ending after now is returned |
| Recommender.RecsOf | utils/recommender.py:240-255 | one record per row, in order, each carrying that row's fields and its candidate count |
| Recommender.BuildRecommendations | utils/recommender.py:240-255 | the loop builds exactly those records |
| Recommender.NotListedMembers | utils/recommender.py:264-265 | the filtered popular rows are exactly the popular rows whose ids are not already listed |
| Recommender.NotListedDistinct | utils/recommender.py:264-265 | filtering popular rows with distinct ids keeps the ids distinct |
| Recommender.NotListedPrefix | utils/recommender.py:264-267 | filtering a prefix of the popular list gives a prefix of the filtered list, so stopping early takes the first filtered rows |
| Recommender.TopUpOfSpec | utils/recommender.py:258-268 | the topped-up list keeps the collaborative rows in front, adds only popular rows with new ids, has at most n rows, and when it ends short of n it holds every popular row with a new id |
| Recommender.TopUpDistinct | utils/recommender.py:258-268 | topping up distinct-id lists keeps the ids distinct |
| Recommender.TopUp | utils/recommender.py:262-268 | the loop's result is exactly the reference top-up: the given rows followed by the first popular rows with new ids, up to n rows in all |
| Recommender.BidMap | utils/recommender.py:60-62 | the defaultdict loop yields each user's bid set |
| Recommender.LikedMap | utils/recommender.py:57-67 | the defaultdict loop yields each user's liked set |
| Recommender.LoadedMaps | utils/recommender.py:57-89 | the interaction maps are the bid and liked sets, there is one profile per user, and each profile is the user's category counts |
| Recommender.BuildProfiles | utils/recommender.py:72-89 | there is one profile per user, and each holds the category counts of that user's bid and liked items |
| Recommender.CollectCategories | utils/recommender.py:101-103 | the union of all profile keys is the set of categories seen |
| Recommender.EmbedAll | utils/recommender.py:109-123 | there is one row per user in profile order, each as long as the column list, with entry (i, j) the count of column j in user i's profile |
| Recommender.AuctionRecommender.constructor | utils/recommender.py:22-38 | the snapshot builds consistent profiles, columns, matrix rows and an id map, and the similarity matrix is computed from the feature matrix |
| Recommender.AuctionRecommender.LoadData | utils/recommender.py:43-91 | it sets the bid and liked sets, one profile per user with that user's category counts, and the id index, and changes nothing else |
| Recommender.AuctionRecommender.CreateFeatureMatrix | utils/recommender.py:98-127 | the columns are the sorted categories seen, every row has the column count, and entry (i, j) is user i's count for column j |
| Recommender.AuctionRecommender.CalculateSimilarity | utils/recommender.py:131-137 | the id map inverts the id list, so every matrix row and id agree |
| Recommender.AuctionRecommender.GetSimilarUsers | utils/recommender.py:141-172 | an unknown user gets []; otherwise the result is the best `min(n_users, #users)` ids by masked score, best first; the target itself is listed when #users ≤ n_users |
| Recommender.RankCandidates | utils/recommender.py:212-223 | the counts drop the target's items, and the pool is the `most_common(2n)` of what remains |
| Recommender.CollaborativeItems | utils/recommender.py:233-241 | the available pool rows in table order cut to n: at most n rows, each a catalogue row from the pool, BIDDING and ending after now |
| Recommender.CollaborativeComplete | utils/recommender.py:233-241 | short of n rows, every available pool row of the catalogue is among the collaborative rows |
| Recommender.CollaborativeRows | utils/recommender.py:233-255 | exactly the records of the collaborative items scored by candidate count; at most n rows with distinct ids, each from the pool, BIDDING and ending after now |
| Recommender.PoolScores | utils/recommender.py:218-220 | scoring the collaborative rows after the target's items are popped equals scoring them by the raw neighbour counts, since pool ids are never the target's |
| Recommender.CollaborativeFits | utils/recommender.py:233-255 | every collaborative row fits: not the target's, available, in the pool and scored by its neighbour count |
| Recommender.TopUpFits | utils/recommender.py:258-268 | topping up fitting collaborative rows with eligible popular rows keeps every row fitting |
| Recommender.AuctionRecommender.FillWithPopular | utils/recommender.py:258-268 | fetches a popular list for the missing slots up to n and returns exactly the reference top-up of the collaborative rows with it |
| Recommender.AuctionRecommender.PopularItems | utils/recommender.py:273-336 | the best `n_items` eligible rows by (bid count, view count): BIDDING, ending after now, created within three days, not interacted with, scored 0, ids distinct |
| Recommender.AuctionRecommender.RecommendItems | utils/recommender.py:174-271 | at most n rows with distinct ids, none bid on or liked by the target; pool rows carry their candidate count, the rest are popular rows; with no neighbours or no candidates the result is exactly the popular list; otherwise it is exactly the collaborative rows (the available pool rows cut to n, scored by neighbour count) topped up with a popular list for the missing slots |
| Recommender.TopSameRanking | utils/recommender.py:167 | two rankings that agree on the pool select the same top lists |
| PriceAI.RatioFor | utils/price_ai.py:19-28 | the table ratio for a mapped category, and 0.90 for none or an unmapped one; always between 0.85 and 0.92 |
| PriceAI.TruncToInt | utils/price_ai.py:66-70 | `int()` truncates toward zero |
| PriceAI.RoundHalfEven | utils/price_ai.py:123 | `round()` returns a nearest integer, and on a tie the even one |
| PriceAI.MinOf | utils/price_ai.py:96 | `np.min` is an element no greater than any element |
| PriceAI.MaxOf | utils/price_ai.py:97 | `np.max` is an element no smaller than any element |
| PriceAI.SumBetween | utils/price_ai.py:95 | elements bounded by lo and hi make the sum lie between n·lo and n·hi |
| PriceAI.MeanBetween | utils/price_ai.py:95-97 | `np.mean` lies between the minimum and the maximum |
| PriceAI.Insert | utils/price_ai.py:45-49 | inserting into a sorted list gives a sorted permutation with one more element |
| PriceAI.SortPrices | utils/price_ai.py:45-49 | `np.sort` returns a sorted permutation |
| PriceAI.SortSorted | utils/price_ai.py:45-49 | sorting a sorted list returns it unchanged |
| PriceAI.InterpolateStep | utils/price_ai.py:48-49 | an interpolated value lies between the two neighbouring sorted elements |
| PriceAI.InterpolateMonotone | utils/price_ai.py:48-49 | interpolation does not decrease with the position |
| PriceAI.PercentileMonotone | utils/price_ai.py:48-50 | percentiles lie within the list's range and grow with p, so Q1 ≤ Q3 |
| PriceAI.CalculateStats | utils/price_ai.py:76-99 | empty gives None fields and count 0; otherwise the count is the length, and min ≤ truncated mean ≤ max with min and max elements bounding every price |
| PriceAI.KeepWithin | utils/price_ai.py:57 | it keeps exactly the prices inside the inclusive bounds, as often as they occur, in their original order |
| PriceAI.FencesOf | utils/price_ai.py:48-54 | Q1 ≤ Q3, IQR ≥ 0, and the lower fence ≤ Q1 ≤ Q3 ≤ the upper fence |
| PriceAI.RemoveOutliersIqr | utils/price_ai.py:30-74 | below three prices the list comes back unchanged without IQR fields; otherwise `removed_count` is the number dropped; the stats are those of the kept prices |
| PriceAI.IqrFilterSpec | utils/price_ai.py:40-74 | the kept list is an order-preserving subsequence, and from three prices up it is exactly the prices inside the fences, with q1 ≤ q3, iqr ≥ 0 and lower ≤ upper bound |
| PriceAI.FilterKeepsSomePrice | utils/price_ai.py:48-57 | with three or more prices the filter never removes everything |
| PriceAI.BetweenQuartiles | utils/price_ai.py:48-49 | a sorted list of three or more has an element between Q1 and Q3 |
| PriceAI.OutlierInstance | utils/price_ai.py:48-71 | [100,100,100,100,10000] gives Q1 = Q3 = 100, IQR 0, bounds [100,100], four 100s kept and one removed |
| PriceAI.CalculateStartPrice | utils/price_ai.py:101-130 | a multiple of 1000 within 500 of average × ratio, and the even thousand on a tie |
| PriceAI.StartPriceInstances | utils/price_ai.py:117-130 | 100000 DIGITAL gives 92000, 5000 without category gives 4000, 720000 CLOTHES gives 612000 |
| PriceAI.KeptNonEmpty | utils/price_ai.py:158-176 | a platform contributes kept prices exactly when it has prices |
| PriceAI.FilterPlatform | utils/price_ai.py:158-169 | a platform's stats are the filtered stats when it has prices and the empty stats otherwise |
| PriceAI.ProcessPrices | utils/price_ai.py:132-193 | per-platform stats; with no prices at all empty combined stats and None price and ratio; otherwise the combined stats of both kept lists, with an average, the start price from it, and the ratio |
| PriceAI.Combine | utils/price_ai.py:178-191 | the closing branch: None price and ratio for nothing kept, otherwise stats, price and ratio from the kept prices |
| PriceAI.StatsPresent | utils/price_ai.py:183 | the filtered stats of a non-empty list always have an average |
| PriceCrawler.DigitsOf | utils/price_crawler_selenium.py:219 | the decimal numeral of n reads back as n |
| PriceCrawler.Pad3 | utils/price_crawler_selenium.py:194 | a zero-padded three-digit group reads back as its value |
| PriceCrawler.ValueOfAppend | utils/price_crawler_selenium.py:219 | the value of two numerals written one after the other |
| PriceCrawler.ContainsFrom | utils/price_crawler_selenium.py:197-216 | `pat in text` holds iff pat occurs at some position |
| PriceCrawler.Strip | utils/price_crawler_selenium.py:194 | no comma, space or newline is left, and nothing is added |
| PriceCrawler.DigitRunEnd | utils/price_crawler_selenium.py:199-224 | the greedy `\d+` run ends at the first non-digit |
| PriceCrawler.DecimalAt | utils/price_crawler_selenium.py:199-208 | a `(\d+\.?\d*)` capture is a non-empty digit run with an optional digit fraction |
| PriceCrawler.SearchDecimal | utils/price_crawler_selenium.py:199-208 | what `re.search` captures is such a numeral |
| PriceCrawler.IntegerAt | utils/price_crawler_selenium.py:217-224 | a `(\d+)` or `(\d{4,})` capture is a digit run of the required length |
| PriceCrawler.SearchInteger | utils/price_crawler_selenium.py:217-224 | what `re.search` captures is such a run |
| PriceCrawler.TenThousandsRule | utils/price_crawler_selenium.py:197-213 | a `만원` or `만` rule yields only prices within [1000, 100000000] |
| PriceCrawler.WonRule | utils/price_crawler_selenium.py:216-228 | a `원` or bare-digits rule yields only prices within [1000, 100000000] |
| PriceCrawler.ExtractPrice | utils/price_crawler_selenium.py:191-230 | the parsed price is None or an integer within [1000, 100000000] |
| PriceCrawler.GroupedPriceRoundTrip | utils/price_crawler_selenium.py:194-221 | any in-range price printed with thousands commas and `원` parses back to itself |
| PriceCrawler.GroupedDigits | utils/price_crawler_selenium.py:194 | stripping a comma-grouped numeral leaves its digits, of the same value |
| PriceCrawler.StripAppend | utils/price_crawler_selenium.py:194 | stripping distributes over concatenation |
| PriceCrawler.StripKeeps | utils/price_crawler_selenium.py:194 | a text without commas, spaces or newlines is left as it is |
| PriceCrawler.NoManIn | utils/price_crawler_selenium.py:197-207 | a numeral with `원` contains neither `만원` nor `만` |
| PriceCrawler.GroupedManwonRoundTrip | utils/price_crawler_selenium.py:196-204 | w printed with commas and `만원` parses to w × 10000 when in range |
| PriceCrawler.GroupedManRoundTrip | utils/price_crawler_selenium.py:206-213 | w printed with commas and `만` parses to w × 10000 when in range |
| PriceCrawler.GroupedBareRoundTrip | utils/price_crawler_selenium.py:223-228 | an in-range price printed with commas and no marker parses back to itself |
| PriceCrawler.NoMarkerInDigits | utils/price_crawler_selenium.py:197-216 | a bare numeral contains no marker |
| PriceCrawler.DecimalManwonRoundTrip | utils/price_crawler_selenium.py:198-204 | w.f`만원` parses to the value × 10000, truncated, when in range |
| PriceCrawler.SearchFraction | utils/price_crawler_selenium.py:199 | `w.f만원` is captured with its fraction |
| PriceCrawler.ManwonBeforeWon | utils/price_crawler_selenium.py:196-221 | the `만원` form wins over an earlier `원` price in the same text |
| PriceCrawler.SkipTo | utils/price_crawler_selenium.py:199 | the leftmost search skips starts that cannot match |
| PriceCrawler.WonInstance | utils/price_crawler_selenium.py:194-221 | "490,000원" gives 490000 |
| PriceCrawler.ManwonInstance | utils/price_crawler_selenium.py:196-204 | "49만원" gives 490000 |
| PriceCrawler.DecimalManwonInstance | utils/price_crawler_selenium.py:198-204 | "49.9만원" gives 499000 |
| PriceCrawler.TooSmallInstance | utils/price_crawler_selenium.py:216-230 | "5원" is below the range and gives None |
| PriceCrawler.LeadingSpaces | utils/price_crawler_selenium.py:234 | the leading run of whitespace |
| PriceCrawler.LeadingWord | utils/price_crawler_selenium.py:234 | the leading run of non-whitespace |
| PriceCrawler.Words | utils/price_crawler_selenium.py:234 | `split()` yields non-empty words without whitespace |
| PriceCrawler.WordsOfJoin | utils/price_crawler_selenium.py:234-237 | splitting a space-joined list of words gives the words back |
| PriceCrawler.ReduceKeyword | utils/price_crawler_selenium.py:232-239 | None iff at most one word; otherwise a non-empty keyword whose words are the original words minus the last |
| PriceCrawler.Attempts | utils/price_crawler_selenium.py:245-256 | the keywords tried start with the original keyword |
| PriceCrawler.AttemptsShrink | utils/price_crawler_selenium.py:247-256 | each retry has exactly one word fewer, the last has at most one, so the loop ends |
| PriceCrawler.AttemptsSuffix | utils/price_crawler_selenium.py:256 | reducing an attempt gives the next attempt, and only the last attempt reduces to None |
| PriceCrawler.FallbackFirstEnough | utils/price_crawler_selenium.py:251-253 | the first attempt with at least `min_samples` prices decides the result and its keyword |
| PriceCrawler.FallbackNoneEnough | utils/price_crawler_selenium.py:258-260 | with no attempt reaching the threshold, the result is the last attempt's prices under the original keyword |
| PriceCrawler.CrawlWithFallback | utils/price_crawler_selenium.py:242-260 | the loop returns the fallback result over the attempts |
| MarketPriceService.MarketPriceTable.constructor | utils/market_price_service.py:76-79 | the table holds the given rows |
| MarketPriceService.FirstRow | utils/market_price_service.py:215-218 | `.first()` finds the first row with the key, or there is none |
| MarketPriceService.Upserted | utils/market_price_service.py:214-240 | an existing row with the key is overwritten, otherwise exactly one row is appended; other rows are unchanged and the written row is present |
| MarketPriceService.UpsertKeepsKeysUnique | utils/market_price_service.py:214-240 | the upsert keeps at most one row per (keyword, platform) |
| MarketPriceService.FreshRows | utils/market_price_service.py:76-83 | the query is empty iff no row of the keyword was crawled after the threshold |
| MarketPriceService.LatestFresh | utils/market_price_service.py:86-100 | a platform's slot is None iff no fresh row of it exists |
| MarketPriceService.LatestFreshIsLast | utils/market_price_service.py:88-100 | the entry found is that of a fresh row with no later fresh row of the platform (later rows overwrite earlier ones) |
| MarketPriceService.LastFromFreshRows | utils/market_price_service.py:88-100 | the loop over the query rows gives each platform's latest fresh row |
| MarketPriceService.LatestFreshUnique | utils/market_price_service.py:76-100 | with one row per key, a fresh row is what the cache returns |
| MarketPriceService.SaveThenRead | utils/market_price_service.py:214-240 | statistics just saved are what the cache returns for that key while fresh |
| MarketPriceService.Lower | utils/market_price_service.py:53 | each character is lowered by 32 code points when it is an ASCII capital and kept otherwise, so no capital remains and the length is kept |
| MarketPriceService.AuctionPrices | utils/market_price_service.py:37-60 | at most one price per item, never 0, every settled sale's price included, and empty iff there is no settled sale |
| MarketPriceService.AuctionPriceSources | utils/market_price_service.py:51-57 | the reported prices and the settled sales correspond one to one, in table order: each price is its own sale's price and every settled sale is reported exactly once |
| MarketPriceService.Replicate | utils/market_price_service.py:275 | `[x] * n` is n copies of x |
| MarketPriceService.CacheHitPrices | utils/market_price_service.py:270-278 | the fused list is the cached average `sample_count` times, when present and non-zero, followed by the settled prices |
| MarketPriceService.StatsIfAny | utils/market_price_service.py:165-170 | statistics exist exactly for a non-empty list |
| MarketPriceService.CacheHitReport | utils/market_price_service.py:262-307 | None iff nothing to fuse; otherwise from the cache, under the keyword, total = fused length, combined stats of the fused list, the start price from its average, and the ratio |
| MarketPriceService.CrawlReport | utils/market_price_service.py:125-192 | crawl + auction counts = total; an empty total gives all None fields; otherwise the combined stats of crawl ++ auction, per-source stats, the start price and the ratio, never from the cache |
| MarketPriceService.EmptyCrawlSavesNothing | utils/market_price_service.py:210-212 | an empty crawl writes no row |
| MarketPriceService.MarketPrice.constructor | utils/market_price_service.py:27-34 | the cache and auction windows are kept |
| MarketPriceService.MarketPrice.GetCachedPrice | utils/market_price_service.py:62-103 | None iff no fresh row of the keyword; otherwise each platform's latest fresh row |
| MarketPriceService.MarketPrice.SaveToDb | utils/market_price_service.py:194-240 | the table becomes the upserted table, unchanged for absent or zero-sample statistics |
| MarketPriceService.MarketPrice.CrawlAndSave | utils/market_price_service.py:105-192 | the report is the crawl report over the fallback crawl and the settled prices under the final keyword; only the crawl stats are saved, under the final keyword |
| MarketPriceService.MarketPrice.GetOrCrawl | utils/market_price_service.py:242-312 | from the cache iff a fresh row exists and the fused list is non-empty, with the table unchanged; otherwise the crawl path, marked not from the cache |

## Left out

- The I/O plumbing is not modelled:
  - The Selenium driver and `crawl_joongna`/`crawl_all` (browser I/O, sleeps, debug files). The crawl is a function parameter.
  - S3 upload, the try-on HTTP proxy, engine and session setup, the health route, `db.commit()`, logging, `print` and `time.time()`.
- Cosine similarity is not computed. The similarity matrix is an input whose values are arbitrary and only its N × N shape is assumed. Nothing is claimed about rows of zero vectors.
- Recommender.AuctionRecommender.RecommendItems: the availability query's `.all()` has no specified order. The model returns matching rows in catalogue-table order and claims no rank order.
- Recommender.AuctionRecommender.PopularItems: rows that tie on (bid count, view count) may come in any order, as in SQL. Only the top-k property is stated.
- Recommender.AuctionRecommender.GetSimilarUsers: ties in `argsort` fall in any order, and the similarity values are abstract.
- Recommender.AuctionRecommender.constructor: user ids are required to be distinct, as primary keys. Item ids are distinct where a contract needs it.
- Recommender.AuctionRecommender.constructor: builds the recommender for every snapshot, including one with no users or with no observed category. There the source's `cosine_similarity` raises `ValueError` on a matrix with no rows or no columns. The similarity is a function parameter of the model, which cannot fail, so this crash is not modelled.
- Item.category is not nullable in the item table, so the profile builder's category test always passes. Only items missing from the item map are skipped.
- Floating point is modelled by exact rationals:
  - PriceAI.CalculateStartPrice: the ratios 0.92 etc. and the product are exact, not binary floats. For averages where float rounding matters, the result can differ by one thousand step from the Python result.
  - PriceAI.FencesOf: numpy's float percentile and fences are exact rationals.
  - PriceCrawler.TenThousands: `int(float(x) * 10000)` is computed exactly. Python's float product can fall just below the exact value, so its result can be one won lower (for example, `0.57만원` gives 5699 in floats and 5700 here).
- PriceCrawler.ExtractPrice: `\d` matches ASCII digits only. Python's `\d` also matches other Unicode decimal digits.
- PriceCrawler.IsSpace follows Python's `str.isspace` for the code points the model lists.
- MarketPriceService.NameMatches: `ilike` case folding is ASCII only, and `%` or `_` inside the keyword are not treated as wildcards.
- MarketPriceService.AuctionPrices: the query's row order is table order.
- MarketPriceService.MarketPrice.GetOrCrawl: the cache-hit path raises an error whenever some cache row is fresh, none of the fresh rows is a joongna row, and settled prices exist. This is the `None.get` at line 290 and is excluded by the precondition `!CacheHitCrashes`.
- MarketPriceService.MarketPrice.GetOrCrawl, MarketPriceService.MarketPrice.CrawlAndSave and PriceCrawler.CrawlWithFallback require a non-empty keyword. With an empty keyword the crawl loop never runs and `results` is unbound.
- MarketPriceService.CrawlReport: the zero-data dict of `crawl_and_save` has no `category_ratio` key, modelled as None. `from_cache` is set to False there, as `get_or_crawl` does afterwards.
- `format_price_message` is message formatting and is not modelled.
- Sample counts are `nat`, and the time window arithmetic is exact integers in seconds.
