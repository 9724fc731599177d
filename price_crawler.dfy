/**
 * The pure helpers of the listing crawler (utils/price_crawler_selenium.py): reading a price
 * out of a listing's price text, shortening a search keyword by its last word, and the retry
 * loop that shortens the keyword until enough prices are found. The browser crawl itself is a
 * function from keyword to the prices found.
 */
module PriceCrawler {
  import opened Wrappers

  // ---------------------------------------------------------------------------------------
  // Characters and decimal numerals
  // ---------------------------------------------------------------------------------------

  /** The ASCII digits `0`-`9`. */
  predicate IsDigit(c: char)
  {
    '0' <= c <= '9'
  }

  predicate AllDigits(s: string)
  {
    forall k :: 0 <= k < |s| ==> IsDigit(s[k])
  }

  /** The value of one digit. */
  function DigitValue(c: char): (d: nat)
    requires IsDigit(c)
    ensures d < 10
  {
    c as int - '0' as int
  }

  /** The digit of a value below ten. */
  function DigitChar(d: nat): (c: char)
    requires d < 10
    ensures IsDigit(c) && DigitValue(c) == d
  {
    ('0' as int + d) as char
  }

  /** The value of a decimal numeral (`int(s)`); the empty numeral is 0. */
  function ValueOf(s: string): nat
    requires AllDigits(s)
  {
    if s == [] then 0 else ValueOf(s[..|s| - 1]) * 10 + DigitValue(s[|s| - 1])
  }

  function Pow10(k: nat): (r: nat)
    ensures r >= 1
  {
    if k == 0 then 1 else 10 * Pow10(k - 1)
  }

  /** The decimal numeral of n without leading zeros. */
  function DigitsOf(n: nat): (s: string)
    ensures AllDigits(s) && s != []
    ensures ValueOf(s) == n
  {
    var last := [DigitChar(n % 10)];
    if n < 10 then last
    else
      var s := DigitsOf(n / 10) + last;
      assert s[..|s| - 1] == DigitsOf(n / 10);
      s
  }

  /** n with a comma every three digits from the right, as listings print prices. */
  function Grouped(n: nat): string
  {
    if n < 1000 then DigitsOf(n) else Grouped(n / 1000) + "," + Pad3(n % 1000)
  }

  /** A three-digit, zero-padded numeral. */
  function Pad3(k: nat): (s: string)
    requires k < 1000
    ensures |s| == 3 && AllDigits(s) && ValueOf(s) == k
  {
    var a, b, c := k / 100, k / 10 % 10, k % 10;
    var s := [DigitChar(a), DigitChar(b), DigitChar(c)];
    var s1, s2 := [DigitChar(a)], [DigitChar(a), DigitChar(b)];
    assert s[..2] == s2 && s2[..1] == s1 && s1[..0] == [];
    assert ValueOf(s1) == a;
    assert ValueOf(s2) == a * 10 + b;
    assert ValueOf(s) == (a * 10 + b) * 10 + c;
    s
  }

  lemma {:induction false} ValueOfAppend(a: string, b: string)
    requires AllDigits(a) && AllDigits(b)
    ensures AllDigits(a + b) && ValueOf(a + b) == ValueOf(a) * Pow10(|b|) + ValueOf(b)
  {
    if b == [] {
      assert a + b == a;
    } else {
      var b0, last := b[..|b| - 1], b[|b| - 1];
      assert (a + b)[..|a + b| - 1] == a + b0;
      assert (a + b)[|a + b| - 1] == last;
      ValueOfAppend(a, b0);
      ShiftDigit(ValueOf(a), Pow10(|b0|), ValueOf(b0), DigitValue(last));
    }
  }

  lemma ShiftDigit(high: nat, scale: nat, low: nat, d: nat)
    ensures (high * scale + low) * 10 + d == high * (10 * scale) + (low * 10 + d)
  {
  }

  // ---------------------------------------------------------------------------------------
  // Substrings and the stripping step
  // ---------------------------------------------------------------------------------------

  /** `pat` occurs in s at position i. */
  predicate HasAt(s: string, i: nat, pat: string)
  {
    i + |pat| <= |s| && s[i..i + |pat|] == pat
  }

  /** Python's `pat in s`, scanning from position i. */
  function ContainsFrom(s: string, pat: string, i: nat): (b: bool)
    requires i <= |s|
    ensures b <==> exists j :: i <= j <= |s| && HasAt(s, j, pat)
    decreases |s| - i
  {
    if HasAt(s, i, pat) then true
    else if i == |s| then false
    else ContainsFrom(s, pat, i + 1)
  }

  /** The characters the parser removes before matching. */
  predicate Ignored(c: char)
  {
    c == ',' || c == ' ' || c == '\n'
  }

  /** `text.replace(',', '').replace(' ', '').replace('\n', '')`. */
  function Strip(s: string): (r: string)
    ensures forall k :: 0 <= k < |r| ==> !Ignored(r[k])
    ensures |r| <= |s|
  {
    if s == [] then []
    else
      var rest := Strip(s[1..]);
      assert s == [s[0]] + s[1..];
      if Ignored(s[0]) then rest else [s[0]] + rest
  }

  // ---------------------------------------------------------------------------------------
  // The four regular expressions
  // ---------------------------------------------------------------------------------------

  /** The end of the run of digits starting at i. */
  function DigitRunEnd(s: string, i: nat): (e: nat)
    requires i <= |s|
    ensures i <= e <= |s|
    ensures forall k :: i <= k < e ==> IsDigit(s[k])
    ensures e == |s| || !IsDigit(s[e])
    decreases |s| - i
  {
    if i < |s| && IsDigit(s[i]) then DigitRunEnd(s, i + 1) else i
  }

  /** A captured number `\d+\.?\d*` as its whole-part digits and its fraction digits. */
  datatype Decimal = Decimal(whole: string, fraction: string)

  /**
   * `(\d+\.?\d*)<suffix>` anchored at i, for a suffix that starts with neither a digit nor a
   * point. Backtracking cannot help: the suffix must follow the whole digit run, or a point
   * and the digit run after it.
   */
  function DecimalAt(s: string, i: nat, suffix: string): (m: Option<Decimal>)
    requires i <= |s|
    ensures m.Some? ==> m.value.whole != [] && AllDigits(m.value.whole) && AllDigits(m.value.fraction)
  {
    if i == |s| || !IsDigit(s[i]) then None
    else
      var e1 := DigitRunEnd(s, i);
      if HasAt(s, e1, suffix) then Some(Decimal(s[i..e1], ""))
      else if e1 < |s| && s[e1] == '.' then
        var e2 := DigitRunEnd(s, e1 + 1);
        if HasAt(s, e2, suffix) then Some(Decimal(s[i..e1], s[e1 + 1..e2])) else None
      else None
  }

  /** `re.search`: the leftmost start from which the pattern matches. */
  function SearchDecimal(s: string, i: nat, suffix: string): (m: Option<Decimal>)
    requires i <= |s|
    ensures m.Some? ==> m.value.whole != [] && AllDigits(m.value.whole) && AllDigits(m.value.fraction)
    decreases |s| - i
  {
    if i == |s| then None
    else if DecimalAt(s, i, suffix).Some? then DecimalAt(s, i, suffix)
    else SearchDecimal(s, i + 1, suffix)
  }

  /** `(\d{minLen,})<suffix>` anchored at i: the greedy digit run, when long enough and followed by the suffix. */
  function IntegerAt(s: string, i: nat, suffix: string, minLen: nat): (m: Option<string>)
    requires i <= |s|
    ensures m.Some? ==> AllDigits(m.value) && |m.value| >= minLen && m.value != []
  {
    if i == |s| || !IsDigit(s[i]) then None
    else
      var e := DigitRunEnd(s, i);
      if e - i >= minLen && HasAt(s, e, suffix) then Some(s[i..e]) else None
  }

  function SearchInteger(s: string, i: nat, suffix: string, minLen: nat): (m: Option<string>)
    requires i <= |s|
    ensures m.Some? ==> AllDigits(m.value) && |m.value| >= minLen && m.value != []
    decreases |s| - i
  {
    if i == |s| then None
    else if IntegerAt(s, i, suffix, minLen).Some? then IntegerAt(s, i, suffix, minLen)
    else SearchInteger(s, i + 1, suffix, minLen)
  }

  // ---------------------------------------------------------------------------------------
  // The price parser
  // ---------------------------------------------------------------------------------------

  const MinPrice: int := 1000
  const MaxPrice: int := 100000000

  predicate InRange(p: int)
  {
    MinPrice <= p <= MaxPrice
  }

  /** `int(float(number) * 10000)`, exactly: ten-thousands, truncated to whole won. */
  function ScaledPrice(d: Decimal): nat
    requires AllDigits(d.whole) && AllDigits(d.fraction)
  {
    TenThousands(ValueOf(d.whole), d.fraction)
  }

  /** `whole.fraction` ten-thousands in won, truncated. */
  function TenThousands(whole: nat, fraction: string): nat
    requires AllDigits(fraction)
  {
    var scale := Pow10(|fraction|);
    var tenThousandths := (whole * scale + ValueOf(fraction)) * 10000;
    NonNegativeQuotient(tenThousandths, scale);
    tenThousandths / scale
  }

  lemma NonNegativeQuotient(x: int, d: int)
    requires d >= 1
    ensures x >= 0 ==> x / d >= 0
  {
  }

  /** One `만원`/`만` rule: the first match, kept only when in range. */
  function TenThousandsRule(text: string, suffix: string): (r: Option<int>)
    ensures r.Some? ==> InRange(r.value)
  {
    match SearchDecimal(text, 0, suffix)
    case None => None
    case Some(d) => if InRange(ScaledPrice(d)) then Some(ScaledPrice(d)) else None
  }

  /** One `원`/bare-digits rule: the first match, kept only when in range. */
  function WonRule(text: string, suffix: string, minLen: nat): (r: Option<int>)
    ensures r.Some? ==> InRange(r.value)
  {
    match SearchInteger(text, 0, suffix, minLen)
    case None => None
    case Some(ds) => if InRange(ValueOf(ds)) then Some(ValueOf(ds)) else None
  }

  /**
   * `_extract_price`: the `만원` form, then the `만` form when `만원` is absent, then digits
   * followed by `원`, then the first run of four or more digits; each rule only when its
   * marker occurs, and a rule whose number is out of range defers to the next.
   */
  function ExtractPrice(raw: string): (r: Option<int>)
    ensures r.Some? ==> MinPrice <= r.value <= MaxPrice
  {
    var text := Strip(raw);
    var manwon := if ContainsFrom(text, "만원", 0) then TenThousandsRule(text, "만원") else None;
    if manwon.Some? then manwon
    else
      var man := if ContainsFrom(text, "만", 0) && !ContainsFrom(text, "만원", 0)
                 then TenThousandsRule(text, "만") else None;
      if man.Some? then man
      else
        var won := if ContainsFrom(text, "원", 0) then WonRule(text, "원", 1) else None;
        if won.Some? then won
        else WonRule(text, "", 4)
  }

  /** A price printed with thousands separators and `원` reads back as itself. */
  lemma GroupedPriceRoundTrip(p: nat)
    requires InRange(p)
    ensures ExtractPrice(Grouped(p) + "원") == Some(p)
  {
    var text := Strip(Grouped(p) + "원");
    var ds := GroupedDigits(p);
    StripDigitsWon(Grouped(p), ds);
    assert text == ds + "원";
    NoManIn(ds);
    var e := DigitRunEnd(text, 0);
    assert e == |ds| by {
      DigitRunOf(ds, "원", 0);
    }
    assert IntegerAt(text, 0, "원", 1) == Some(ds);
    assert HasAt(text, |ds|, "원");
  }

  /** The digits left after stripping a grouped numeral, with their value. */
  lemma {:induction false} GroupedDigits(n: nat) returns (ds: string)
    ensures AllDigits(ds) && ds != [] && ValueOf(ds) == n
    ensures Strip(Grouped(n)) == ds
  {
    if n < 1000 {
      ds := DigitsOf(n);
      StripKeeps(ds);
    } else {
      var high := GroupedDigits(n / 1000);
      var low := Pad3(n % 1000);
      StripKeeps(low);
      StripAppend(Grouped(n / 1000), "," + low);
      StripAppend(",", low);
      assert Strip(",") == [];
      assert Grouped(n) == Grouped(n / 1000) + ("," + low);
      ds := high + low;
      ValueOfAppend(high, low);
      assert Pow10(3) == 1000;
      assert ValueOf(ds) == n / 1000 * 1000 + n % 1000;
    }
  }

  lemma {:induction false} StripAppend(a: string, b: string)
    ensures Strip(a + b) == Strip(a) + Strip(b)
  {
    if a == [] {
      assert a + b == b;
    } else {
      assert (a + b)[0] == a[0];
      assert (a + b)[1..] == a[1..] + b;
      StripAppend(a[1..], b);
      if !Ignored(a[0]) {
        assert Strip(a + b) == [a[0]] + (Strip(a[1..]) + Strip(b));
      }
    }
  }

  /** Stripping removes nothing else: a string free of the ignored characters is its own stripping. */
  lemma {:induction false} StripKeeps(s: string)
    requires forall k :: 0 <= k < |s| ==> !Ignored(s[k])
    ensures Strip(s) == s
  {
    if s != [] {
      StripKeeps(s[1..]);
      assert s == [s[0]] + s[1..];
    }
  }

  lemma StripDigitsWon(g: string, ds: string)
    requires Strip(g) == ds
    ensures Strip(g + "원") == ds + "원"
  {
    StripAppend(g, "원");
    assert Strip("원") == "원";
  }

  /** A numeral followed by `원` contains no `만`. */
  lemma NoManIn(ds: string)
    requires AllDigits(ds)
    ensures !ContainsFrom(ds + "원", "만원", 0) && !ContainsFrom(ds + "원", "만", 0)
    ensures ContainsFrom(ds + "원", "원", 0)
  {
    var t := ds + "원";
    assert HasAt(t, |ds|, "원");
    forall j | 0 <= j <= |t| ensures !HasAt(t, j, "만") && !HasAt(t, j, "만원") {
      if j < |t| {
        assert t[j] != '만' by {
          if j < |ds| {
            assert t[j] == ds[j];
          }
        }
        if j + 1 <= |t| {
          assert t[j..j + 1][0] == t[j];
        }
        if j + 2 <= |t| {
          assert t[j..j + 2][0] == t[j];
        }
      }
    }
  }

  lemma DigitRunOf(ds: string, tail: string, i: nat)
    requires AllDigits(ds) && i <= |ds|
    requires tail == [] || !IsDigit(tail[0])
    ensures DigitRunEnd(ds + tail, i) == |ds|
    decreases |ds| - i
  {
    var t := ds + tail;
    if i < |ds| {
      assert t[i] == ds[i];
      DigitRunOf(ds, tail, i + 1);
    } else if tail != [] {
      assert t[i] == tail[0];
    }
  }

  /** A whole number of ten-thousands, printed with separators and `만원`, reads back as that many won. */
  lemma GroupedManwonRoundTrip(w: nat)
    requires InRange(w * 10000)
    ensures ExtractPrice(Grouped(w) + "만원") == Some(w * 10000)
  {
    var ds := GroupedDigits(w);
    StripSuffix(Grouped(w), ds, "만원");
    var text := ds + "만원";
    assert HasAt(text, |ds|, "만원");
    SearchWhole(ds, "만원");
    assert ScaledPrice(Decimal(ds, "")) == w * 10000;
  }

  /** The same with the shorter marker `만`. */
  lemma GroupedManRoundTrip(w: nat)
    requires InRange(w * 10000)
    ensures ExtractPrice(Grouped(w) + "만") == Some(w * 10000)
  {
    var ds := GroupedDigits(w);
    StripSuffix(Grouped(w), ds, "만");
    var text := ds + "만";
    assert HasAt(text, |ds|, "만");
    forall j | 0 <= j <= |text| ensures !HasAt(text, j, "만원") {
      if j < |ds| {
        assert text[j] == ds[j];
      }
    }
    SearchWhole(ds, "만");
    assert ScaledPrice(Decimal(ds, "")) == w * 10000;
  }

  /** A bare price of four or more digits, printed with separators, reads back as itself. */
  lemma GroupedBareRoundTrip(p: nat)
    requires InRange(p)
    ensures ExtractPrice(Grouped(p)) == Some(p)
  {
    var ds := GroupedDigits(p);
    NoMarkerInDigits(ds, "만원");
    NoMarkerInDigits(ds, "만");
    NoMarkerInDigits(ds, "원");
    ValueBelowPow10(ds);
    assert |ds| >= 4 by {
      if |ds| < 4 {
        Pow10Monotone(|ds|, 3);
      }
    }
    DigitRunOf(ds, "", 0);
    assert ds + "" == ds;
    assert HasAt(ds, |ds|, "");
    assert IntegerAt(ds, 0, "", 4) == Some(ds);
  }

  /** A numeral contains no marker that starts with a non-digit. */
  lemma NoMarkerInDigits(ds: string, pat: string)
    requires AllDigits(ds)
    requires pat != [] && !IsDigit(pat[0])
    ensures !ContainsFrom(ds, pat, 0)
  {
    forall j | 0 <= j <= |ds| ensures !HasAt(ds, j, pat) {
      if j + |pat| <= |ds| {
        assert ds[j..j + |pat|][0] == ds[j];
      }
    }
  }

  /** After stripping, a separator-free suffix stays at the end. */
  lemma StripSuffix(g: string, ds: string, suffix: string)
    requires Strip(g) == ds
    requires forall k :: 0 <= k < |suffix| ==> !Ignored(suffix[k])
    ensures Strip(g + suffix) == ds + suffix
  {
    StripAppend(g, suffix);
    StripKeeps(suffix);
  }

  /** A digit run followed by a marker matches at once, with no fraction. */
  lemma SearchWhole(ds: string, suffix: string)
    requires AllDigits(ds) && ds != []
    requires suffix != [] && !IsDigit(suffix[0]) && suffix[0] != '.'
    ensures SearchDecimal(ds + suffix, 0, suffix) == Some(Decimal(ds, ""))
  {
    var text := ds + suffix;
    DigitRunOf(ds, suffix, 0);
    assert text[0] == ds[0];
    assert text[..|ds|] == ds;
    assert HasAt(text, |ds|, suffix);
  }

  lemma {:induction false} ValueBelowPow10(s: string)
    requires AllDigits(s)
    ensures ValueOf(s) < Pow10(|s|)
  {
    if s != [] {
      ValueBelowPow10(s[..|s| - 1]);
    }
  }

  lemma {:induction false} Pow10Monotone(i: nat, j: nat)
    requires i <= j
    ensures Pow10(i) <= Pow10(j)
  {
    if i < j {
      Pow10Monotone(i, j - 1);
    }
  }

  /** A fraction of ten-thousands, as in 49.9만원, reads back truncated to whole won. */
  lemma DecimalManwonRoundTrip(w: nat, f: string)
    requires AllDigits(f)
    requires InRange(TenThousands(w, f))
    ensures ExtractPrice(Grouped(w) + "." + f + "만원") == Some(TenThousands(w, f))
  {
    var ds := GroupedDigits(w);
    var tail := "." + f + "만원";
    assert Grouped(w) + "." + f + "만원" == Grouped(w) + tail;
    StripKeepsFraction(f);
    StripSuffix(Grouped(w), ds, tail);
    var text := ds + tail;
    assert ContainsFrom(text, "만원", 0) by {
      assert HasAt(text, |text| - 2, "만원");
    }
    SearchFraction(ds, f);
  }

  /** A digit run, a point, a fraction and `만원` match at once with that fraction. */
  lemma SearchFraction(ds: string, f: string)
    requires AllDigits(ds) && ds != [] && AllDigits(f)
    ensures SearchDecimal(ds + ("." + f + "만원"), 0, "만원") == Some(Decimal(ds, f))
  {
    var tail := "." + f + "만원";
    var text := ds + tail;
    var e1, e2 := |ds|, |ds| + 1 + |f|;
    assert DigitRunEnd(text, 0) == e1 by {
      DigitRunOf(ds, tail, 0);
    }
    assert DigitRunEnd(text, e1 + 1) == e2 by {
      FractionRun(ds, f);
    }
    assert IsDigit(text[0]) && text[e1] == '.' && !HasAt(text, e1, "만원") by {
      assert text[0] == ds[0] && text[e1] == tail[0];
    }
    assert text[0..e1] == ds && text[e1 + 1..e2] == f && HasAt(text, e2, "만원") by {
      assert text[e1 + 1..] == f + "만원";
    }
  }

  lemma StripKeepsFraction(f: string)
    requires AllDigits(f)
    ensures forall k :: 0 <= k < |"." + f + "만원"| ==> !Ignored(("." + f + "만원")[k])
  {
    var t := "." + f + "만원";
    forall k | 0 <= k < |t| ensures !Ignored(t[k]) {
      if 1 <= k < 1 + |f| {
        assert t[k] == f[k - 1];
      }
    }
  }

  /** The run of fraction digits ends at the marker. */
  lemma FractionRun(ds: string, f: string)
    requires AllDigits(f)
    ensures var text := ds + ("." + f + "만원");
      DigitRunEnd(text, |ds| + 1) == |ds| + 1 + |f|
  {
    var text := ds + ("." + f + "만원");
    assert text == (ds + "." + f) + "만원";
    assert (ds + "." + f)[|ds| + 1..] == f;
    RunFrom(ds + "." + f, "만원", |ds| + 1);
  }

  lemma RunFrom(s: string, tail: string, i: nat)
    requires i <= |s| && AllDigits(s[i..])
    requires tail == [] || !IsDigit(tail[0])
    ensures DigitRunEnd(s + tail, i) == |s|
    decreases |s| - i
  {
    var t := s + tail;
    if i < |s| {
      assert t[i] == s[i..][0];
      assert s[i + 1..] == s[i..][1..];
      RunFrom(s, tail, i + 1);
    } else if tail != [] {
      assert t[i] == tail[0];
    }
  }

  /** The `만원` form wins over an earlier `원` price in the same text, as in "1,000원 49만원". */
  lemma ManwonBeforeWon(a: nat, w: nat)
    requires InRange(w * 10000)
    ensures ExtractPrice((Grouped(a) + "원") + (Grouped(w) + "만원")) == Some(w * 10000)
  {
    var ds1 := GroupedDigits(a);
    var ds2 := GroupedDigits(w);
    var pre := ds1 + "원";
    var text := pre + (ds2 + "만원");
    StripTwoPrices(Grouped(a), ds1, Grouped(w), ds2);
    assert ContainsFrom(text, "만원", 0) by {
      assert HasAt(text, |pre| + |ds2|, "만원");
    }
    assert TenThousandsRule(text, "만원") == Some(w * 10000) by {
      SearchAfterWon(ds1, ds2);
      assert ScaledPrice(Decimal(ds2, "")) == w * 10000;
    }
  }

  lemma StripTwoPrices(g1: string, ds1: string, g2: string, ds2: string)
    requires Strip(g1) == ds1 && Strip(g2) == ds2
    ensures Strip((g1 + "원") + (g2 + "만원")) == (ds1 + "원") + (ds2 + "만원")
  {
    StripSuffix(g1, ds1, "원");
    StripSuffix(g2, ds2, "만원");
    StripAppend(g1 + "원", g2 + "만원");
  }

  lemma SearchAfterWon(ds1: string, ds2: string)
    requires AllDigits(ds1) && AllDigits(ds2) && ds2 != []
    ensures SearchDecimal((ds1 + "원") + (ds2 + "만원"), 0, "만원") == Some(Decimal(ds2, ""))
  {
    var pre := ds1 + "원";
    var text := pre + (ds2 + "만원");
    assert text == ds1 + "원" + (ds2 + "만원");
    assert text == pre + ds2 + "만원";
    forall k | 0 <= k < |pre| ensures DecimalAt(text, k, "만원").None? {
      WonEndsRun(ds1, ds2 + "만원", k);
    }
    SkipTo(text, 0, |pre|, "만원");
    WholeAt(pre, ds2, "만원");
  }

  /** No `(\d+\.?\d*)만원` match starts in a digit run that `원` ends. */
  lemma WonEndsRun(ds: string, rest: string, k: nat)
    requires AllDigits(ds) && k <= |ds|
    ensures DecimalAt(ds + "원" + rest, k, "만원").None?
  {
    var tail := "원" + rest;
    var text := ds + tail;
    assert ds + "원" + rest == text;
    assert text[|ds|] == '원';
    if k < |ds| {
      assert text[k] == ds[k];
      DigitRunOf(ds, tail, k);
    }
  }

  /** Starts with no match can be skipped. */
  lemma {:induction false} SkipTo(text: string, i: nat, j: nat, suffix: string)
    requires i <= j <= |text|
    requires forall k :: i <= k < j ==> DecimalAt(text, k, suffix).None?
    ensures SearchDecimal(text, i, suffix) == SearchDecimal(text, j, suffix)
    decreases j - i
  {
    if i < j {
      SkipTo(text, i + 1, j, suffix);
    }
  }

  /** A digit run followed by a marker matches where the run starts, with no fraction. */
  lemma WholeAt(pre: string, ds: string, suffix: string)
    requires AllDigits(ds) && ds != []
    requires suffix != [] && !IsDigit(suffix[0]) && suffix[0] != '.'
    ensures DecimalAt(pre + ds + suffix, |pre|, suffix) == Some(Decimal(ds, ""))
  {
    var text := pre + ds + suffix;
    var e := |pre| + |ds|;
    assert DigitRunEnd(text, |pre|) == e by {
      assert (pre + ds)[|pre|..] == ds;
      assert text == (pre + ds) + suffix;
      RunFrom(pre + ds, suffix, |pre|);
    }
    assert text[|pre|] == ds[0] && text[|pre|..e] == ds && HasAt(text, e, suffix);
  }

  /** "490,000원" is 490,000 won: the comma is stripped before matching. */
  lemma WonInstance()
    ensures ExtractPrice("490,000원") == Some(490000)
  {
    GroupedPriceRoundTrip(490000);
    assert Grouped(490000) == "490,000" by {
      assert DigitsOf(4) == "4";
      assert DigitsOf(49) == DigitsOf(4) + "9";
      assert DigitsOf(490) == DigitsOf(49) + "0";
      assert Pad3(0) == "000";
    }
    assert Grouped(490000) + "원" == "490,000원";
  }

  /** "49만원" is 490,000 won. */
  lemma ManwonInstance()
    ensures ExtractPrice("49만원") == Some(490000)
  {
    GroupedManwonRoundTrip(49);
    GroupedFortyNine();
    assert Grouped(49) + "만원" == "49만원";
  }

  /** "49.9만원" is 499,000 won. */
  lemma DecimalManwonInstance()
    ensures ExtractPrice("49.9만원") == Some(499000)
  {
    assert TenThousands(49, "9") == 499000 by {
      assert ValueOf("9") == 9;
      assert Pow10(1) == 10;
    }
    DecimalManwonRoundTrip(49, "9");
    GroupedFortyNine();
    assert Grouped(49) + "." + "9" + "만원" == "49.9만원";
  }

  lemma GroupedFortyNine()
    ensures Grouped(49) == "49"
  {
    assert DigitsOf(4) == "4";
    assert DigitsOf(49) == DigitsOf(4) + "9";
  }

  lemma TooSmallInstance()
    ensures ExtractPrice("5원") == None
  {
  }

  // ---------------------------------------------------------------------------------------
  // Keyword reduction
  // ---------------------------------------------------------------------------------------

  /** Python's `str.isspace` for one character, the separators `str.split()` uses. */
  predicate IsSpace(c: char)
  {
    c == '\t' || c == '\n' || c == '\U{B}' || c == '\U{C}' || c == '\r'
    || ('\U{1C}' <= c <= '\U{1F}') || c == ' ' || c == '\U{85}' || c == '\U{A0}'
    || c == '\U{1680}' || ('\U{2000}' <= c <= '\U{200A}') || c == '\U{2028}' || c == '\U{2029}'
    || c == '\U{202F}' || c == '\U{205F}' || c == '\U{3000}'
  }

  /** A word: a non-empty string with no separator in it. */
  predicate IsWord(w: string)
  {
    w != [] && forall k :: 0 <= k < |w| ==> !IsSpace(w[k])
  }

  /** The separators at the front of s. */
  function LeadingSpaces(s: string): (n: nat)
    ensures n <= |s| && (forall k :: 0 <= k < n ==> IsSpace(s[k])) && (n == |s| || !IsSpace(s[n]))
  {
    if s != [] && IsSpace(s[0]) then 1 + LeadingSpaces(s[1..]) else 0
  }

  /** The non-separators at the front of s. */
  function LeadingWord(s: string): (n: nat)
    ensures n <= |s| && (forall k :: 0 <= k < n ==> !IsSpace(s[k])) && (n == |s| || IsSpace(s[n]))
  {
    if s != [] && !IsSpace(s[0]) then 1 + LeadingWord(s[1..]) else 0
  }

  /** `s.split()`: the maximal runs of non-separators. */
  function Words(s: string): (ws: seq<string>)
    ensures forall i :: 0 <= i < |ws| ==> IsWord(ws[i])
    decreases |s|
  {
    var t := s[LeadingSpaces(s)..];
    if t == [] then []
    else
      var n := LeadingWord(t);
      [t[..n]] + Words(t[n..])
  }

  /** `' '.join(ws)`. */
  function Join(ws: seq<string>): string
  {
    if ws == [] then "" else if |ws| == 1 then ws[0] else ws[0] + " " + Join(ws[1..])
  }

  /** Splitting a space-joined list of words gives the words back. */
  lemma {:induction false} WordsOfJoin(ws: seq<string>)
    requires forall i :: 0 <= i < |ws| ==> IsWord(ws[i])
    ensures Words(Join(ws)) == ws
  {
    if ws != [] {
      var w := ws[0];
      var s := Join(ws);
      assert LeadingSpaces(s) == 0;
      assert s[0..] == s;
      if |ws| == 1 {
        WordRun(w, "");
        assert s == w + "";
        assert s[|w|..] == [];
      } else {
        var rest := Join(ws[1..]);
        assert s == w + (" " + rest);
        WordRun(w, " " + rest);
        assert s[|w|..] == " " + rest;
        WordsOfJoin(ws[1..]);
        SpaceThenJoin(ws[1..]);
      }
    }
  }

  lemma {:induction false} WordRun(w: string, tail: string)
    requires IsWord(w)
    requires tail == [] || IsSpace(tail[0])
    ensures LeadingWord(w + tail) == |w| && (w + tail)[..|w|] == w
  {
    if |w| > 1 {
      assert (w + tail)[1..] == w[1..] + tail;
      WordRun(w[1..], tail);
    } else {
      assert (w + tail)[1..] == tail;
    }
  }

  /** A leading space does not change the words. */
  lemma SpaceThenJoin(ws: seq<string>)
    requires ws != [] && forall i :: 0 <= i < |ws| ==> IsWord(ws[i])
    ensures Words(" " + Join(ws)) == Words(Join(ws))
  {
    var s := " " + Join(ws);
    var j := Join(ws);
    assert IsWord(ws[0]);
    assert j[0] == ws[0][0];
    assert s[1..] == j;
    assert LeadingSpaces(j) == 0;
    assert LeadingSpaces(s) == 1;
    assert s[1..][0..] == j;
  }

  /** `reduce_keyword`: the keyword without its last word, or None when one word or none is left. */
  function ReduceKeyword(keyword: string): (r: Option<string>)
    ensures r.None? <==> |Words(keyword)| <= 1
    ensures r.Some? ==> Words(r.value) == Words(keyword)[..|Words(keyword)| - 1]
    ensures r.Some? ==> |Words(r.value)| < |Words(keyword)| && r.value != ""
  {
    var words := Words(keyword);
    if |words| <= 1 then None
    else
      var kept := words[..|words| - 1];
      WordsOfJoin(kept);
      Some(Join(kept))
  }

  // ---------------------------------------------------------------------------------------
  // The fallback loop
  // ---------------------------------------------------------------------------------------

  /** The keywords the loop tries when no attempt has enough prices: each one word shorter. */
  function Attempts(keyword: string): (a: seq<string>)
    ensures a != [] && a[0] == keyword
    decreases |Words(keyword)|
  {
    match ReduceKeyword(keyword)
    case None => [keyword]
    case Some(shorter) => [keyword] + Attempts(shorter)
  }

  /** Every attempt has one word fewer than the one before it, and the last has at most one. */
  lemma {:induction false} AttemptsShrink(keyword: string)
    ensures var a := Attempts(keyword);
      && (forall i :: 0 <= i < |a| - 1 ==> |Words(a[i + 1])| == |Words(a[i])| - 1)
      && |Words(a[|a| - 1])| <= 1
      && |a| <= if |Words(keyword)| <= 1 then 1 else |Words(keyword)|
    decreases |Words(keyword)|
  {
    match ReduceKeyword(keyword)
    case None =>
    case Some(shorter) =>
      AttemptsShrink(shorter);
      var a := Attempts(keyword);
      assert a[1..] == Attempts(shorter);
  }

  /**
   * The loop's result over the remaining attempts: the first attempt with enough prices and
   * its keyword, or else the last attempt's prices under the original keyword.
   */
  function Fallback(attempts: seq<string>, original: string, minSamples: int, crawl: string -> seq<int>)
    : (r: (seq<int>, string))
    requires attempts != []
  {
    if |crawl(attempts[0])| >= minSamples then (crawl(attempts[0]), attempts[0])
    else if |attempts| == 1 then (crawl(attempts[0]), original)
    else Fallback(attempts[1..], original, minSamples, crawl)
  }

  /** The first attempt with enough prices decides the result. */
  lemma {:induction false} FallbackFirstEnough(attempts: seq<string>, original: string, minSamples: int,
                                               crawl: string -> seq<int>, j: int)
    requires 0 <= j < |attempts|
    requires |crawl(attempts[j])| >= minSamples
    requires forall i :: 0 <= i < j ==> |crawl(attempts[i])| < minSamples
    ensures Fallback(attempts, original, minSamples, crawl) == (crawl(attempts[j]), attempts[j])
  {
    if j > 0 {
      assert |crawl(attempts[0])| < minSamples;
      FallbackFirstEnough(attempts[1..], original, minSamples, crawl, j - 1);
    }
  }

  /** When no attempt has enough prices, the last attempt's prices come back under the original keyword. */
  lemma {:induction false} FallbackNoneEnough(attempts: seq<string>, original: string, minSamples: int,
                                              crawl: string -> seq<int>)
    requires attempts != []
    requires forall i :: 0 <= i < |attempts| ==> |crawl(attempts[i])| < minSamples
    ensures Fallback(attempts, original, minSamples, crawl) == (crawl(attempts[|attempts| - 1]), original)
  {
    if |attempts| > 1 {
      assert |crawl(attempts[0])| < minSamples;
      FallbackNoneEnough(attempts[1..], original, minSamples, crawl);
    }
  }

  /** `crawl_with_fallback_selenium` for the joongna price list. */
  method CrawlWithFallback(keyword: string, minSamples: int, crawl: string -> seq<int>)
    returns (prices: seq<int>, finalKeyword: string)
    requires keyword != ""
    ensures (prices, finalKeyword) == Fallback(Attempts(keyword), keyword, minSamples, crawl)
  {
    ghost var attempts := Attempts(keyword);
    var current: Option<string> := Some(keyword);
    ghost var tried := 0;
    prices := [];
    while current.Some? && current.value != ""
      invariant 0 <= tried <= |attempts|
      invariant current.Some? ==> tried < |attempts| && current.value == attempts[tried] && current.value != ""
      invariant current.Some? ==> Fallback(attempts, keyword, minSamples, crawl)
                                  == Fallback(attempts[tried..], keyword, minSamples, crawl)
      invariant current.None? ==> Fallback(attempts, keyword, minSamples, crawl) == (prices, keyword)
      decreases |attempts| - tried
    {
      var results := crawl(current.value);
      assert attempts[tried..][0] == current.value;
      if |results| >= minSamples {
        return results, current.value;
      }
      prices := results;
      AttemptsSuffix(keyword, tried);
      current := ReduceKeyword(current.value);
      if current.Some? {
        assert attempts[tried..][1..] == attempts[tried + 1..];
      }
      tried := tried + 1;
    }
    finalKeyword := keyword;
  }

  lemma {:induction false} AttemptsSuffix(k: string, i: int)
    requires 0 <= i < |Attempts(k)|
    ensures ReduceKeyword(Attempts(k)[i]).None? <==> i == |Attempts(k)| - 1
    ensures ReduceKeyword(Attempts(k)[i]).Some? ==> ReduceKeyword(Attempts(k)[i]).value == Attempts(k)[i + 1]
    decreases |Words(k)|
  {
    match ReduceKeyword(k)
    case None =>
    case Some(shorter) =>
      if i > 0 {
        assert Attempts(k)[i] == Attempts(shorter)[i - 1];
        AttemptsSuffix(shorter, i - 1);
      }
  }
}
