/**
 * Outlier removal by the interquartile-range rule, summary statistics and the suggested
 * auction start price (utils/price_ai.py). Prices are Python integers; the floating-point
 * quartiles, fences, ratios and roundings of the source are computed here in exact rational
 * arithmetic (`real`), with Python's `int()` (truncation toward zero) and `round()` (half to
 * even) written out.
 */
module PriceAI {
  import opened Wrappers
  import opened Domain

  // ---------------------------------------------------------------------------------------
  // Category ratios
  // ---------------------------------------------------------------------------------------

  /** `CATEGORY_RATIOS`: the share of the market average used as the start price. */
  const CategoryRatios: map<Category, real> := map[
    DIGITAL := 0.92, CLOTHES := 0.85, HOME_APPLIANCE := 0.90, BEAUTY := 0.85, SPORTS := 0.88]

  /** `DEFAULT_RATIO`, for no category or one without an entry. */
  const DefaultRatio: real := 0.90

  /** `CATEGORY_RATIOS.get(category, DEFAULT_RATIO)`. */
  function RatioFor(category: Option<Category>): (r: real)
    ensures category.Some? && category.value in CategoryRatios ==> r == CategoryRatios[category.value]
    ensures category.None? || category.value !in CategoryRatios ==> r == DefaultRatio
    ensures 0.85 <= r <= 0.92
  {
    if category.Some? && category.value in CategoryRatios then CategoryRatios[category.value]
    else DefaultRatio
  }

  // ---------------------------------------------------------------------------------------
  // Python's integer conversions of a float
  // ---------------------------------------------------------------------------------------

  /** `int(x)`: truncation toward zero. */
  function TruncToInt(x: real): (r: int)
    ensures x >= 0.0 ==> r as real <= x < r as real + 1.0
    ensures x < 0.0 ==> r as real - 1.0 < x <= r as real
  {
    if x >= 0.0 then x.Floor else -((-x).Floor)
  }

  /** `round(x)`: the nearest integer, ties to the even one. */
  function RoundHalfEven(x: real): (r: int)
    ensures -0.5 <= r as real - x <= 0.5
    ensures r as real - x == 0.5 || x - r as real == 0.5 ==> r % 2 == 0
  {
    var f := x.Floor;
    var d := x - f as real;
    if d < 0.5 then f
    else if d > 0.5 then f + 1
    else if f % 2 == 0 then f
    else f + 1
  }

  // ---------------------------------------------------------------------------------------
  // Sums, extremes and sorting
  // ---------------------------------------------------------------------------------------

  function Sum(s: seq<int>): int
  {
    if s == [] then 0 else Sum(s[..|s| - 1]) + s[|s| - 1]
  }

  function MinOf(s: seq<int>): (m: int)
    requires s != []
    ensures m in s && forall i :: 0 <= i < |s| ==> m <= s[i]
  {
    if |s| == 1 then s[0]
    else
      var rest := MinOf(s[1..]);
      assert forall i :: 1 <= i < |s| ==> s[i] == s[1..][i - 1];
      if s[0] <= rest then s[0] else rest
  }

  function MaxOf(s: seq<int>): (m: int)
    requires s != []
    ensures m in s && forall i :: 0 <= i < |s| ==> s[i] <= m
  {
    if |s| == 1 then s[0]
    else
      var rest := MaxOf(s[1..]);
      assert forall i :: 1 <= i < |s| ==> s[i] == s[1..][i - 1];
      if s[0] >= rest then s[0] else rest
  }

  lemma {:induction false} SumBetween(s: seq<int>, lo: int, hi: int)
    requires forall i :: 0 <= i < |s| ==> lo <= s[i] <= hi
    ensures |s| * lo <= Sum(s) <= |s| * hi
  {
    if s != [] {
      var init := s[..|s| - 1];
      assert forall i :: 0 <= i < |init| ==> init[i] == s[i];
      SumBetween(init, lo, hi);
    }
  }

  /** The arithmetic mean `np.mean`, exactly. */
  function Mean(s: seq<int>): real
    requires s != []
  {
    Sum(s) as real / |s| as real
  }

  lemma MeanBetween(s: seq<int>)
    requires s != []
    ensures MinOf(s) as real <= Mean(s) <= MaxOf(s) as real
  {
    SumBetween(s, MinOf(s), MaxOf(s));
    QuotientBetween(Sum(s), |s|, MinOf(s), MaxOf(s));
  }

  /** n * lo <= t <= n * hi gives lo <= t / n <= hi. */
  lemma QuotientBetween(t: int, n: int, lo: int, hi: int)
    requires n > 0 && n * lo <= t <= n * hi
    ensures lo as real <= t as real / n as real <= hi as real
  {
    var q := t as real / n as real;
    assert q * n as real == t as real;
    assert (n * lo) as real == n as real * lo as real;
    assert (n * hi) as real == n as real * hi as real;
  }

  predicate IsSorted(s: seq<int>)
  {
    forall i, j :: 0 <= i < j < |s| ==> s[i] <= s[j]
  }

  function Insert(x: int, s: seq<int>): (r: seq<int>)
    requires IsSorted(s)
    ensures |r| == |s| + 1 && multiset(r) == multiset(s) + multiset{x}
    ensures r[0] == if s == [] || x <= s[0] then x else s[0]
    ensures IsSorted(r)
  {
    if s == [] then [x]
    else if x <= s[0] then
      ConsSorted(x, s);
      [x] + s
    else
      SortedTail(s);
      var rest := Insert(x, s[1..]);
      ConsSorted(s[0], rest);
      assert s == [s[0]] + s[1..];
      [s[0]] + rest
  }

  lemma SortedTail(s: seq<int>)
    requires IsSorted(s) && s != []
    ensures IsSorted(s[1..]) && (|s| >= 2 ==> s[0] <= s[1])
  {
  }

  /** A sorted list stays sorted when a value no larger than its head is put in front. */
  lemma ConsSorted(a: int, s: seq<int>)
    requires IsSorted(s) && (s == [] || a <= s[0])
    ensures IsSorted([a] + s)
  {
    var r := [a] + s;
    forall i, j | 0 <= i < j < |r| ensures r[i] <= r[j] {
      if i == 0 && j > 1 {
        assert s[0] <= s[j - 1];
      }
    }
  }

  /** `np.sort`: the prices in ascending order. */
  function SortPrices(s: seq<int>): (r: seq<int>)
    ensures IsSorted(r) && multiset(r) == multiset(s) && |r| == |s|
  {
    if s == [] then []
    else
      assert s == [s[0]] + s[1..];
      Insert(s[0], SortPrices(s[1..]))
  }

  /** Sorting an already sorted list changes nothing. */
  lemma {:induction false} SortSorted(s: seq<int>)
    requires IsSorted(s)
    ensures SortPrices(s) == s
  {
    if s != [] {
      SortSorted(s[1..]);
      assert s == [s[0]] + s[1..];
    }
  }

  // ---------------------------------------------------------------------------------------
  // Percentiles (numpy's default "linear" method)
  // ---------------------------------------------------------------------------------------

  /**
   * The value at fractional position `num / 100` of a sorted list: the element below plus
   * the fraction of the step to the element above.
   */
  function Interpolate(a: seq<int>, num: int): real
    requires a != [] && 0 <= num <= (|a| - 1) * 100
  {
    var lo := num / 100;
    PositionInRange(num, |a| - 1);
    if lo + 1 < |a| then a[lo] as real + ((num % 100) as real / 100.0) * (a[lo + 1] - a[lo]) as real
    else a[lo] as real
  }

  /** `np.percentile(a, p)` for a sorted list and a whole-number p. */
  function Percentile(a: seq<int>, p: int): real
    requires a != [] && 0 <= p <= 100
  {
    ScaleMonotone(|a| - 1, p, 100);
    Interpolate(a, (|a| - 1) * p)
  }

  lemma PositionInRange(num: int, n: nat)
    requires 0 <= num <= n * 100
    ensures 0 <= num / 100 <= n
  {
  }

  lemma InterpolateStep(a: seq<int>, num: int)
    requires a != [] && 0 <= num <= (|a| - 1) * 100 && IsSorted(a)
    ensures a[num / 100] as real <= Interpolate(a, num)
    ensures num / 100 + 1 < |a| ==> Interpolate(a, num) <= a[num / 100 + 1] as real
  {
    var lo := num / 100;
    PositionInRange(num, |a| - 1);
    if lo + 1 < |a| {
      var f := (num % 100) as real / 100.0;
      var d := (a[lo + 1] - a[lo]) as real;
      assert a[lo] <= a[lo + 1];
      FractionOfStep(f, d);
    }
  }

  lemma FractionOfStep(f: real, d: real)
    requires 0.0 <= f <= 1.0 && d >= 0.0
    ensures 0.0 <= f * d <= d
  {
  }

  /** Interpolation is monotone in the position. */
  lemma InterpolateMonotone(a: seq<int>, x: int, y: int)
    requires a != [] && IsSorted(a)
    requires 0 <= x <= y <= (|a| - 1) * 100
    ensures Interpolate(a, x) <= Interpolate(a, y)
  {
    InterpolateStep(a, x);
    InterpolateStep(a, y);
    var lx, ly := x / 100, y / 100;
    if lx < ly {
      assert lx + 1 < |a|;
      assert a[lx + 1] <= a[ly];
    } else {
      assert lx == ly;
      if lx + 1 < |a| {
        var d := (a[lx + 1] - a[lx]) as real;
        assert d >= 0.0;
        assert (x % 100) <= (y % 100);
        assert ((x % 100) as real / 100.0) * d <= ((y % 100) as real / 100.0) * d;
      }
    }
  }

  /** Percentiles of a sorted list lie within it and grow with p. */
  lemma PercentileMonotone(a: seq<int>, p: int, q: int)
    requires a != [] && IsSorted(a) && 0 <= p <= q <= 100
    ensures a[0] as real <= Percentile(a, p) <= Percentile(a, q) <= a[|a| - 1] as real
  {
    var n := |a| - 1;
    ScaleMonotone(n, p, q);
    ScaleMonotone(n, q, 100);
    InterpolateMonotone(a, 0, n * p);
    InterpolateMonotone(a, n * p, n * q);
    InterpolateMonotone(a, n * q, n * 100);
    assert n * 100 / 100 == n;
  }

  lemma ScaleMonotone(n: nat, p: int, q: int)
    requires 0 <= p <= q
    ensures 0 <= n * p <= n * q
  {
  }

  // ---------------------------------------------------------------------------------------
  // Statistics and the IQR filter
  // ---------------------------------------------------------------------------------------

  /** The extra fields of the stats dict when the IQR filter ran. */
  datatype IqrFields = IqrFields(q1: int, q3: int, iqr: int, lowerBound: int, upperBound: int, removedCount: nat)

  /** The stats dict: `None` values for an empty list. */
  datatype PriceStats = PriceStats(
    avgPrice: Option<int>,
    minPrice: Option<int>,
    maxPrice: Option<int>,
    sampleCount: nat,
    iqrFields: Option<IqrFields>)

  const EmptyStats: PriceStats := PriceStats(None, None, None, 0, None)

  /** `_calculate_stats`: truncated mean, minimum, maximum and count. */
  function CalculateStats(prices: seq<int>): (s: PriceStats)
    ensures s.sampleCount == |prices| && s.iqrFields.None?
    ensures prices == [] <==> s == EmptyStats
    ensures prices != [] ==> s.avgPrice.Some? && s.minPrice.Some? && s.maxPrice.Some?
    ensures prices != [] ==> s.minPrice.value <= s.avgPrice.value <= s.maxPrice.value
    ensures prices != [] ==> s.minPrice.value in prices && s.maxPrice.value in prices
    ensures forall i :: 0 <= i < |prices| ==> s.minPrice.value <= prices[i] <= s.maxPrice.value
  {
    if prices == [] then EmptyStats
    else
      MeanBetween(prices);
      PriceStats(Some(TruncToInt(Mean(prices))), Some(MinOf(prices)), Some(MaxOf(prices)), |prices|, None)
  }

  /** `[p for p in prices if lower <= p <= upper]`. */
  function KeepWithin(prices: seq<int>, lower: real, upper: real): (r: seq<int>)
    ensures |r| <= |prices|
    ensures forall i :: 0 <= i < |r| ==> lower <= r[i] as real <= upper
    ensures forall p :: multiset(r)[p] == if lower <= p as real <= upper then multiset(prices)[p] else 0
    ensures IsSubsequence(r, prices)
  {
    if prices == [] then []
    else
      var rest := KeepWithin(prices[1..], lower, upper);
      assert prices == [prices[0]] + prices[1..];
      if lower <= prices[0] as real <= upper then [prices[0]] + rest
      else
        assert rest == [] || rest[0] != prices[0];
        rest
  }

  /** `sub` is `s` with some elements deleted, the rest in their original order. */
  predicate IsSubsequence(sub: seq<int>, s: seq<int>)
  {
    if sub == [] then true
    else if s == [] then false
    else if sub[0] == s[0] then IsSubsequence(sub[1..], s[1..])
    else IsSubsequence(sub, s[1..])
  }

  /** The quartiles and fences `remove_outliers_iqr` computes, exactly. */
  datatype Fences = Fences(q1: real, q3: real, iqr: real, lower: real, upper: real)

  function FencesOf(prices: seq<int>): (f: Fences)
    requires prices != []
    ensures f.q1 <= f.q3 && f.iqr >= 0.0 && f.lower <= f.q1 && f.q3 <= f.upper
  {
    var sorted := SortPrices(prices);
    PercentileMonotone(sorted, 25, 75);
    var q1 := Percentile(sorted, 25);
    var q3 := Percentile(sorted, 75);
    var iqr := q3 - q1;
    Fences(q1, q3, iqr, q1 - 1.5 * iqr, q3 + 1.5 * iqr)
  }

  /** The kept prices and the stats dict. */
  datatype Filtered = Filtered(prices: seq<int>, stats: PriceStats)

  /** `remove_outliers_iqr`. */
  function RemoveOutliersIqr(prices: seq<int>): (r: Filtered)
    ensures |prices| < 3 ==> r.prices == prices && r.stats.iqrFields.None?
    ensures |prices| >= 3 ==>
      && r.stats.iqrFields.Some?
      && r.stats.iqrFields.value.removedCount == |prices| - |r.prices|
    ensures r.stats.(iqrFields := None) == CalculateStats(r.prices)
  {
    if |prices| < 3 then
      Filtered(prices, CalculateStats(prices))
    else
      var f := FencesOf(prices);
      var kept := KeepWithin(prices, f.lower, f.upper);
      var s := CalculateStats(kept);
      var fields := IqrFields(TruncToInt(f.q1), TruncToInt(f.q3), TruncToInt(f.iqr),
                              TruncToInt(f.lower), TruncToInt(f.upper), |prices| - |kept|);
      Filtered(kept, s.(iqrFields := Some(fields)))
  }

  /**
   * What the filter keeps: exactly the prices inside the fences, in their original order,
   * and the reported quartiles and fences are ordered.
   */
  lemma IqrFilterSpec(prices: seq<int>)
    ensures IsSubsequence(RemoveOutliersIqr(prices).prices, prices)
    ensures |prices| >= 3 ==>
      var r := RemoveOutliersIqr(prices);
      && r.stats.iqrFields.Some?
      && r.prices == KeepWithin(prices, FencesOf(prices).lower, FencesOf(prices).upper)
      && r.stats.iqrFields.value.q1 <= r.stats.iqrFields.value.q3
      && r.stats.iqrFields.value.iqr >= 0
      && r.stats.iqrFields.value.lowerBound <= r.stats.iqrFields.value.upperBound
  {
    if |prices| < 3 {
      SubsequenceRefl(prices);
    } else {
      var f := FencesOf(prices);
      TruncMonotone(f.q1, f.q3);
      TruncMonotone(f.lower, f.upper);
      TruncMonotone(0.0, f.iqr);
    }
  }

  lemma TruncMonotone(x: real, y: real)
    requires x <= y
    ensures TruncToInt(x) <= TruncToInt(y)
  {
  }

  lemma {:induction false} SubsequenceRefl(s: seq<int>)
    ensures IsSubsequence(s, s)
  {
    if s != [] {
      SubsequenceRefl(s[1..]);
    }
  }

  /**
   * With at least three prices something survives the filter: the sorted element just above
   * the first quartile's position lies between the quartiles, hence inside the fences.
   */
  lemma FilterKeepsSomePrice(prices: seq<int>)
    requires |prices| >= 3
    ensures RemoveOutliersIqr(prices).prices != []
  {
    var x := BetweenQuartiles(SortPrices(prices));
    var f := FencesOf(prices);
    assert f.lower <= x as real <= f.upper;
    assert multiset(prices)[x] > 0;
    var kept := KeepWithin(prices, f.lower, f.upper);
    assert multiset(kept)[x] > 0;
  }

  /** A sorted list of three or more has an element between its first and third quartiles. */
  lemma BetweenQuartiles(a: seq<int>) returns (x: int)
    requires |a| >= 3 && IsSorted(a)
    ensures x in multiset(a) && Percentile(a, 25) <= x as real <= Percentile(a, 75)
  {
    var m := |a| - 1;
    QuartilePositions(m);
    InterpolateStep(a, m * 25);
    InterpolateStep(a, m * 75);
    x := a[m * 25 / 100 + 1];
    assert x <= a[m * 75 / 100];
  }

  lemma QuartilePositions(m: int)
    requires m >= 2
    ensures m * 25 / 100 + 1 <= m * 75 / 100 && m * 75 / 100 < m
  {
    var a := m * 25 / 100;
    assert 100 * a <= m * 25;
    assert 100 * (a + 1) <= m * 75;
  }

  /** Five listings with one far above the rest: the outlier is dropped, the four others kept. */
  lemma OutlierInstance()
    ensures RemoveOutliersIqr([100, 100, 100, 100, 10000])
      == Filtered([100, 100, 100, 100],
                  PriceStats(Some(100), Some(100), Some(100), 4, Some(IqrFields(100, 100, 0, 100, 100, 1))))
  {
    var prices := [100, 100, 100, 100, 10000];
    InstanceSorted();
    InstanceQuartiles();
    InstanceKept();
    InstanceStats();
  }

  lemma InstanceSorted()
    ensures SortPrices([100, 100, 100, 100, 10000]) == [100, 100, 100, 100, 10000]
  {
    SortSorted([100, 100, 100, 100, 10000]);
  }

  lemma InstanceQuartiles()
    ensures Percentile([100, 100, 100, 100, 10000], 25) == 100.0
    ensures Percentile([100, 100, 100, 100, 10000], 75) == 100.0
  {
    var a := [100, 100, 100, 100, 10000];
    assert Interpolate(a, 100) == 100.0 by {
      assert a[1] == 100 && a[2] == 100;
    }
    assert Interpolate(a, 300) == 100.0 by {
      assert a[3] == 100 && a[4] == 10000;
    }
  }

  lemma InstanceKept()
    ensures KeepWithin([100, 100, 100, 100, 10000], 100.0, 100.0) == [100, 100, 100, 100]
  {
    var prices := [100, 100, 100, 100, 10000];
    assert prices[1..] == [100, 100, 100, 10000];
    assert prices[1..][1..] == [100, 100, 10000];
    assert prices[1..][1..][1..] == [100, 10000];
    assert prices[1..][1..][1..][1..] == [10000];
    assert KeepWithin([10000], 100.0, 100.0) == [];
    assert KeepWithin([100, 10000], 100.0, 100.0) == [100];
    assert KeepWithin([100, 100, 10000], 100.0, 100.0) == [100, 100];
    assert KeepWithin([100, 100, 100, 10000], 100.0, 100.0) == [100, 100, 100];
  }

  lemma InstanceStats()
    ensures CalculateStats([100, 100, 100, 100]) == PriceStats(Some(100), Some(100), Some(100), 4, None)
  {
    var kept := [100, 100, 100, 100];
    assert Sum(kept) == 400 by {
      assert kept[..3] == [100, 100, 100];
      assert kept[..3][..2] == [100, 100];
      assert kept[..3][..2][..1] == [100];
      assert [100][..0] == [];
    }
    assert MinOf(kept) == 100 && MaxOf(kept) == 100;
    assert Mean(kept) == 100.0;
  }

  // ---------------------------------------------------------------------------------------
  // Start price
  // ---------------------------------------------------------------------------------------

  /** `calculate_start_price`: the average times the category ratio, to the nearest 1000. */
  function CalculateStartPrice(avgPrice: int, category: Option<Category>): (r: int)
    ensures r % 1000 == 0
    ensures -500.0 <= r as real - avgPrice as real * RatioFor(category) <= 500.0
    ensures r as real - avgPrice as real * RatioFor(category) == 500.0
         || avgPrice as real * RatioFor(category) - r as real == 500.0
         ==> (r / 1000) % 2 == 0
  {
    var x := avgPrice as real * RatioFor(category);
    var k := RoundHalfEven(x / 1000.0);
    assert (1000 * k) as real - x == 1000.0 * (k as real - x / 1000.0);
    1000 * k
  }

  lemma StartPriceInstances()
    ensures CalculateStartPrice(100000, Some(DIGITAL)) == 92000
    ensures CalculateStartPrice(5000, None) == 4000
    ensures CalculateStartPrice(720000, Some(CLOTHES)) == 612000
  {
    assert RoundHalfEven(92.0) == 92;
    assert RoundHalfEven(4.5) == 4;
    assert RoundHalfEven(612.0) == 612;
  }

  // ---------------------------------------------------------------------------------------
  // The per-platform and combined report
  // ---------------------------------------------------------------------------------------

  /** The result dict of `process_prices`. */
  datatype PriceReport = PriceReport(
    joongnaStats: PriceStats,
    daangnStats: PriceStats,
    combinedStats: PriceStats,
    suggestedStartPrice: Option<int>,
    categoryRatio: Option<real>)

  /** The prices a platform contributes to the combined statistics. */
  function Kept(prices: seq<int>): seq<int>
  {
    if prices == [] then [] else RemoveOutliersIqr(prices).prices
  }

  /** A non-empty list never filters down to nothing. */
  lemma KeptNonEmpty(prices: seq<int>)
    ensures Kept(prices) == [] <==> prices == []
  {
    if |prices| >= 3 {
      FilterKeepsSomePrice(prices);
    }
  }

  /** One platform's branch of `process_prices`: filter its prices when it has any. */
  method FilterPlatform(prices: seq<int>) returns (filtered: seq<int>, stats: PriceStats)
    ensures filtered == Kept(prices)
    ensures stats == if prices == [] then EmptyStats else RemoveOutliersIqr(prices).stats
    ensures filtered == [] <==> prices == []
  {
    filtered, stats := [], EmptyStats;
    if prices != [] {
      var f := RemoveOutliersIqr(prices);
      filtered, stats := f.prices, f.stats;
    }
    KeptNonEmpty(prices);
  }

  method ProcessPrices(joongna: seq<int>, daangn: seq<int>, category: Option<Category>)
    returns (report: PriceReport)
    ensures report.joongnaStats == if joongna == [] then EmptyStats else RemoveOutliersIqr(joongna).stats
    ensures report.daangnStats == if daangn == [] then EmptyStats else RemoveOutliersIqr(daangn).stats
    ensures joongna == [] && daangn == [] ==>
      report.combinedStats == EmptyStats && report.suggestedStartPrice.None? && report.categoryRatio.None?
    ensures joongna != [] || daangn != [] ==>
      && report.combinedStats == RemoveOutliersIqr(Kept(joongna) + Kept(daangn)).stats
      && report.combinedStats.avgPrice.Some?
      && report.suggestedStartPrice == Some(CalculateStartPrice(report.combinedStats.avgPrice.value, category))
      && report.categoryRatio == Some(RatioFor(category))
  {
    var filteredJoongna, joongnaStats := FilterPlatform(joongna);
    var filteredDaangn, daangnStats := FilterPlatform(daangn);
    var allFiltered: seq<int> := [];
    if joongna != [] {
      allFiltered := allFiltered + filteredJoongna;
      assert allFiltered == filteredJoongna;
    }
    assert allFiltered == Kept(joongna);
    if daangn != [] {
      allFiltered := allFiltered + filteredDaangn;
    } else {
      assert allFiltered == allFiltered + filteredDaangn;
    }
    assert allFiltered == Kept(joongna) + Kept(daangn);
    var combined, suggested, ratio := Combine(allFiltered, category);
    report := PriceReport(joongnaStats, daangnStats, combined, suggested, ratio);
  }

  /** The closing branch of `process_prices`: statistics over every kept price, if any. */
  method Combine(allFiltered: seq<int>, category: Option<Category>)
    returns (combined: PriceStats, suggested: Option<int>, ratio: Option<real>)
    ensures allFiltered == [] ==> combined == EmptyStats && suggested.None? && ratio.None?
    ensures allFiltered != [] ==>
      && combined == RemoveOutliersIqr(allFiltered).stats
      && combined.avgPrice.Some?
      && suggested == Some(CalculateStartPrice(combined.avgPrice.value, category))
      && ratio == Some(RatioFor(category))
  {
    if allFiltered != [] {
      combined := RemoveOutliersIqr(allFiltered).stats;
      StatsPresent(allFiltered);
      suggested := Some(CalculateStartPrice(combined.avgPrice.value, category));
      ratio := Some(RatioFor(category));
    } else {
      combined, suggested, ratio := EmptyStats, None, None;
    }
  }

  /** The filtered statistics of a non-empty list always have an average. */
  lemma StatsPresent(prices: seq<int>)
    requires prices != []
    ensures RemoveOutliersIqr(prices).stats.avgPrice.Some?
  {
    KeptNonEmpty(prices);
    var r := RemoveOutliersIqr(prices);
    assert r.stats.avgPrice == r.stats.(iqrFields := None).avgPrice;
  }
}
