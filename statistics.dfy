/** `calculate_statistics`: count, truncated mean and median of the stored
    prices, and the 1.5 x IQR price outliers of the normalised rows. */
module Statistics {
  import opened Listings

  /** The statistics dictionary: `{}` for an empty table. */
  datatype Stats =
    | NoData
    | Snapshot(averagePrice: int, medianPrice: int, totalProperties: nat, outliersCount: nat, outliers: seq<Row>)

  /* ---------------------------------------------------------------------
     Sorting, sums, mean and median over exact reals
     --------------------------------------------------------------------- */

  predicate Sorted(xs: seq<real>) {
    forall i, j :: 0 <= i < j < |xs| ==> xs[i] <= xs[j]
  }

  function Insert(x: real, xs: seq<real>): (r: seq<real>)
    requires Sorted(xs)
    ensures |r| == |xs| + 1
    ensures r[0] == x || (xs != [] && r[0] == xs[0])
    ensures Sorted(r) && multiset(r) == multiset(xs) + multiset{x}
  {
    if xs == [] || x <= xs[0] then [x] + xs
    else
      assert xs == [xs[0]] + xs[1..];
      [xs[0]] + Insert(x, xs[1..])
  }

  /** The values in ascending order (insertion sort). */
  function Sort(xs: seq<real>): (r: seq<real>)
    ensures Sorted(r) && multiset(r) == multiset(xs)
  {
    if xs == [] then []
    else
      assert xs == [xs[0]] + xs[1..];
      Insert(xs[0], Sort(xs[1..]))
  }

  function Sum(xs: seq<real>): real {
    if xs == [] then 0.0 else xs[0] + Sum(xs[1..])
  }

  function Mean(xs: seq<real>): real
    requires |xs| > 0
  {
    Sum(xs) / |xs| as real
  }

  /** The middle value, or the mean of the two middle values. */
  function Median(xs: seq<real>): real
    requires |xs| > 0
  {
    var s := Sort(xs);
    var n := |s|;
    if n % 2 == 1 then s[n / 2] else (s[n / 2 - 1] + s[n / 2]) / 2.0
  }

  predicate Within(xs: seq<real>, lo: real, hi: real) {
    forall i :: 0 <= i < |xs| ==> lo <= xs[i] <= hi
  }

  lemma {:induction false} SumBounds(xs: seq<real>, lo: real, hi: real)
    requires Within(xs, lo, hi)
    ensures |xs| as real * lo <= Sum(xs) <= |xs| as real * hi
  {
    if xs != [] {
      assert Within(xs[1..], lo, hi);
      SumBounds(xs[1..], lo, hi);
    }
  }

  /** The mean lies within any bounds of the values. */
  lemma MeanBounds(xs: seq<real>, lo: real, hi: real)
    requires |xs| > 0 && Within(xs, lo, hi)
    ensures lo <= Mean(xs) <= hi
  {
    SumBounds(xs, lo, hi);
    var n := |xs| as real;
    assert Sum(xs) / n >= lo by { assert Sum(xs) >= n * lo; }
    assert Sum(xs) / n <= hi by { assert Sum(xs) <= n * hi; }
  }

  /** Sorting keeps every value within the same bounds. */
  lemma SortWithin(xs: seq<real>, lo: real, hi: real)
    requires Within(xs, lo, hi)
    ensures Within(Sort(xs), lo, hi)
  {
    var s := Sort(xs);
    forall i | 0 <= i < |s|
      ensures lo <= s[i] <= hi
    {
      assert s[i] in multiset(s);
      assert s[i] in multiset(xs);
      var j :| 0 <= j < |xs| && xs[j] == s[i];
    }
  }

  /** The median lies within any bounds of the values. */
  lemma MedianBounds(xs: seq<real>, lo: real, hi: real)
    requires |xs| > 0 && Within(xs, lo, hi)
    ensures lo <= Median(xs) <= hi
  {
    SortWithin(xs, lo, hi);
  }

  lemma SortLength(xs: seq<real>)
    ensures |Sort(xs)| == |xs|
  {
    var s := Sort(xs);
    assert |s| == |multiset(s)| == |xs|;
  }

  /** Every value of a sorted list lies between its first and its last. */
  lemma SortedEnds(s: seq<real>)
    requires |s| > 0 && Sorted(s)
    ensures Within(s, s[0], s[|s| - 1])
  {
  }

  lemma MedianBetweenEnds(xs: seq<real>)
    requires |xs| > 0
    ensures |Sort(xs)| == |xs|
    ensures Sort(xs)[0] <= Median(xs) <= Sort(xs)[|xs| - 1]
  {
    SortLength(xs);
    SortedEnds(Sort(xs));
  }

  lemma {:induction false} SortOfSorted(xs: seq<real>)
    requires Sorted(xs)
    ensures Sort(xs) == xs
  {
    if xs != [] {
      assert Sorted(xs[1..]);
      SortOfSorted(xs[1..]);
      assert xs == [xs[0]] + xs[1..];
    }
  }

  /* ---------------------------------------------------------------------
     Quantiles with linear interpolation
     --------------------------------------------------------------------- */

  lemma MulBelow(a: nat, b: nat, c: nat)
    requires b <= c
    ensures a * b <= a * c
  {
  }

  /** Quotient and remainder of `h` by `den`, by repeated subtraction. */
  function DivMod(h: nat, den: nat): (qr: (nat, nat))
    requires 0 < den
    ensures qr.0 * den + qr.1 == h
    ensures qr.1 < den
    decreases h
  {
    if h < den then (0, h) else var (q, r) := DivMod(h - den, den); (q + 1, r)
  }

  lemma {:induction false} DivModExact(k: nat, den: nat)
    requires 0 < den
    ensures DivMod(k * den, den) == (k, 0)
  {
    if k > 0 {
      assert k * den - den == (k - 1) * den;
      DivModExact(k - 1, den);
    }
  }

  /** Division keeps the order of its dividends, and equal quotients leave
      the remainders in that order. */
  lemma {:induction false} DivMonotone(ha: nat, hb: nat, den: nat)
    requires 0 < den && ha <= hb
    ensures DivMod(ha, den).0 <= DivMod(hb, den).0
    ensures DivMod(ha, den).0 == DivMod(hb, den).0 ==> DivMod(ha, den).1 <= DivMod(hb, den).1
    decreases ha
  {
    if ha >= den {
      DivMonotone(ha - den, hb - den, den);
    }
  }

  /** The position `(n - 1) * q` of quantile `q = num / den` in a sorted
      list of `n` values, as an index and a fractional part `rem / den`. */
  function Index(n: nat, num: nat, den: nat): nat
    requires 0 < n && 0 < den
  {
    DivMod((n - 1) * num, den).0
  }

  function Fraction(n: nat, num: nat, den: nat): nat
    requires 0 < n && 0 < den
  {
    DivMod((n - 1) * num, den).1
  }

  lemma PositionInRange(n: nat, num: nat, den: nat)
    requires 0 < n && 0 < den && num <= den
    ensures Index(n, num, den) < n
    ensures Fraction(n, num, den) > 0 ==> Index(n, num, den) + 1 < n
    ensures Fraction(n, num, den) < den
  {
    MulBelow(n - 1, num, den);
    assert (n - 1) * den == den * (n - 1);
    DivMonotone((n - 1) * num, (n - 1) * den, den);
    DivModExact(n - 1, den);
  }

  /** The pandas default quantile of a sorted list: linear interpolation
      between the two values around position `(n - 1) * num / den`. */
  function Quantile(s: seq<real>, num: nat, den: nat): (q: real)
    requires |s| > 0 && Sorted(s) && 0 < den && num <= den
    ensures Index(|s|, num, den) < |s|
    ensures Fraction(|s|, num, den) > 0 ==> Index(|s|, num, den) + 1 < |s|
    ensures s[Index(|s|, num, den)] <= q
    ensures Fraction(|s|, num, den) == 0 ==> q == s[Index(|s|, num, den)]
    ensures Fraction(|s|, num, den) > 0 ==> q <= s[Index(|s|, num, den) + 1]
  {
    PositionInRange(|s|, num, den);
    var lo, rem := Index(|s|, num, den), Fraction(|s|, num, den);
    if rem == 0 then s[lo]
    else
      assert s[lo] <= s[lo + 1];
      Interpolate(s[lo], s[lo + 1], Frac(rem, den))
  }

  function Scale(f: real, d: real): real {
    f * d
  }

  lemma ScaleBelow(f: real, g: real, d: real)
    requires 0.0 <= f <= g && 0.0 <= d
    ensures 0.0 <= Scale(f, d) <= Scale(g, d)
  {
    assert Scale(g, d) - Scale(f, d) == (g - f) * d;
  }

  /** The fraction `rem / den`. */
  function Frac(rem: nat, den: nat): (f: real)
    requires 0 < den && rem <= den
    ensures 0.0 <= f <= 1.0
  {
    rem as real / den as real
  }

  lemma FracMonotone(ra: nat, rb: nat, den: nat)
    requires 0 < den && ra <= rb <= den
    ensures Frac(ra, den) <= Frac(rb, den)
  {
    var d := den as real;
    assert Frac(rb, den) - Frac(ra, den) == (rb - ra) as real / d;
  }

  /** The point a fraction `frac` of the way from `a` to `b`. */
  function Interpolate(a: real, b: real, frac: real): (v: real)
    requires a <= b && 0.0 <= frac <= 1.0
    ensures a <= v <= b
  {
    ScaleBelow(frac, 1.0, b - a);
    a + Scale(frac, b - a)
  }

  lemma InterpolateMonotone(a: real, b: real, f: real, g: real)
    requires a <= b && 0.0 <= f <= g <= 1.0
    ensures Interpolate(a, b, f) <= Interpolate(a, b, g)
  {
    ScaleBelow(f, g, b - a);
  }

  lemma PositionMonotone(n: nat, a: nat, b: nat, den: nat)
    requires 0 < n && 0 < den && a <= b
    ensures Index(n, a, den) <= Index(n, b, den)
    ensures Index(n, a, den) == Index(n, b, den) ==> Fraction(n, a, den) <= Fraction(n, b, den)
  {
    MulBelow(n - 1, a, b);
    DivMonotone((n - 1) * a, (n - 1) * b, den);
  }

  /** A higher quantile is never below a lower one. */
  lemma QuantileMonotone(s: seq<real>, a: nat, b: nat, den: nat)
    requires |s| > 0 && Sorted(s) && 0 < den && a <= b <= den
    ensures Quantile(s, a, den) <= Quantile(s, b, den)
  {
    var n := |s|;
    PositionMonotone(n, a, b, den);
    PositionInRange(n, a, den);
    PositionInRange(n, b, den);
    var la, lb := Index(n, a, den), Index(n, b, den);
    var ra, rb := Fraction(n, a, den), Fraction(n, b, den);
    if la < lb {
      assert Quantile(s, a, den) <= s[lb] by {
        if ra > 0 {
          assert s[la + 1] <= s[lb];
        }
      }
    } else if ra > 0 {
      assert s[la] <= s[la + 1];
      FracMonotone(ra, rb, den);
      InterpolateMonotone(s[la], s[la + 1], Frac(ra, den), Frac(rb, den));
    }
  }

  /** Every quantile lies within any bounds of the values. */
  lemma QuantileWithin(s: seq<real>, num: nat, den: nat, lo: real, hi: real)
    requires |s| > 0 && Sorted(s) && 0 < den && num <= den && Within(s, lo, hi)
    ensures lo <= Quantile(s, num, den) <= hi
  {
    PositionInRange(|s|, num, den);
  }

  /* ---------------------------------------------------------------------
     Outliers of the normalised rows
     --------------------------------------------------------------------- */

  function Prices(rows: seq<Row>): (ps: seq<real>)
    ensures |ps| == |rows|
    ensures forall i :: 0 <= i < |rows| ==> ps[i] == rows[i].price as real
  {
    seq(|rows|, i requires 0 <= i < |rows| => rows[i].price as real)
  }

  const Threshold: real := 1.5

  /** The first and third quartiles of the prices. */
  function Quartiles(rows: seq<Row>): (q: (real, real))
    requires |rows| > 0
    ensures var s := Sort(Prices(rows));
      |s| == |rows| && s[0] <= q.0 <= q.1 <= s[|s| - 1]
  {
    var s := Sort(Prices(rows));
    SortLength(Prices(rows));
    SortedEnds(s);
    QuantileWithin(s, 1, 4, s[0], s[|s| - 1]);
    QuantileWithin(s, 3, 4, s[0], s[|s| - 1]);
    QuantileMonotone(s, 1, 3, 4);
    (Quantile(s, 1, 4), Quantile(s, 3, 4))
  }

  /** The lower fence lies below Q1, and meets it only when Q1 = Q3. */
  function LowerFence(rows: seq<Row>): (f: real)
    requires |rows| > 0
    ensures f <= Quartiles(rows).0
    ensures f == Quartiles(rows).0 <==> Quartiles(rows).0 == Quartiles(rows).1
  {
    var (q1, q3) := Quartiles(rows);
    q1 - Threshold * (q3 - q1)
  }

  /** The upper fence lies above Q3, and meets it only when Q1 = Q3. */
  function UpperFence(rows: seq<Row>): (f: real)
    requires |rows| > 0
    ensures Quartiles(rows).1 <= f
    ensures f == Quartiles(rows).1 <==> Quartiles(rows).0 == Quartiles(rows).1
  {
    var (q1, q3) := Quartiles(rows);
    q3 + Threshold * (q3 - q1)
  }

  /** The rows priced below the fence, in table order. */
  function Below(rows: seq<Row>, fence: real): (r: seq<Row>)
    ensures |r| <= |rows|
    ensures forall x :: x in r <==> x in rows && (x.price as real) < fence
    ensures forall x :: multiset(r)[x] == if (x.price as real) < fence then multiset(rows)[x] else 0
  {
    if rows == [] then []
    else
      assert rows == [rows[0]] + rows[1..];
      (if (rows[0].price as real) < fence then [rows[0]] else []) + Below(rows[1..], fence)
  }

  /** The rows priced above the fence, in table order. */
  function Above(rows: seq<Row>, fence: real): (r: seq<Row>)
    ensures |r| <= |rows|
    ensures forall x :: x in r <==> x in rows && (x.price as real) > fence
    ensures forall x :: multiset(r)[x] == if (x.price as real) > fence then multiset(rows)[x] else 0
  {
    if rows == [] then []
    else
      assert rows == [rows[0]] + rows[1..];
      (if (rows[0].price as real) > fence then [rows[0]] else []) + Above(rows[1..], fence)
  }

  /** The low outliers followed by the high outliers: each row priced
      outside the fences, as often as it occurs in the table. */
  function Outliers(rows: seq<Row>): (r: seq<Row>)
    ensures rows != [] ==>
      forall x :: multiset(r)[x] ==
        if (x.price as real) < LowerFence(rows) || (x.price as real) > UpperFence(rows) then multiset(rows)[x] else 0
    ensures rows != [] ==>
      forall i, j :: 0 <= i < j < |r| && (r[j].price as real) < LowerFence(rows) ==> (r[i].price as real) < LowerFence(rows)
  {
    if rows == [] then []
    else
      var low, high := Below(rows, LowerFence(rows)), Above(rows, UpperFence(rows));
      LowBeforeHigh(low, high, LowerFence(rows), UpperFence(rows));
      low + high
  }

  /** Concatenating rows priced below `f` with rows priced above `g >= f`
      puts every row below `f` ahead of every other row. */
  lemma LowBeforeHigh(low: seq<Row>, high: seq<Row>, f: real, g: real)
    requires f <= g
    requires forall x :: x in low ==> (x.price as real) < f
    requires forall x :: x in high ==> (x.price as real) > g
    ensures forall i, j :: 0 <= i < j < |low + high| && ((low + high)[j].price as real) < f ==>
      ((low + high)[i].price as real) < f
  {
    var r := low + high;
    forall i, j | 0 <= i < j < |r|
      ensures (r[j].price as real) < f ==> (r[i].price as real) < f
    {
      if i < |low| {
        assert r[i] == low[i] && low[i] in low;
      } else {
        assert r[j] == high[j - |low|] && high[j - |low|] in high;
      }
    }
  }

  /** Q1 <= Q3, so the interquartile range is never negative and the lower
      fence lies below the upper one. */
  lemma QuartilesOrdered(rows: seq<Row>)
    requires |rows| > 0
    ensures Quartiles(rows).0 <= Quartiles(rows).1
    ensures LowerFence(rows) <= Quartiles(rows).0 && Quartiles(rows).1 <= UpperFence(rows)
  {
    QuantileMonotone(Sort(Prices(rows)), 1, 3, 4);
  }

  /** An outlier is a row of the table priced outside the fences, and every
      such row is an outlier; no row is both a low and a high outlier. */
  lemma OutliersAreRowsOutsideFences(rows: seq<Row>)
    requires |rows| > 0
    ensures forall r :: r in Outliers(rows) <==>
      r in rows && ((r.price as real) < LowerFence(rows) || (r.price as real) > UpperFence(rows))
    ensures forall r :: r in Below(rows, LowerFence(rows)) ==> r !in Above(rows, UpperFence(rows))
  {
    QuartilesOrdered(rows);
  }

  lemma {:induction false} NoneBelow(rows: seq<Row>, fence: real)
    requires forall i :: 0 <= i < |rows| ==> rows[i].price as real >= fence
    ensures Below(rows, fence) == []
  {
    if rows != [] {
      NoneBelow(rows[1..], fence);
    }
  }

  lemma {:induction false} NoneAbove(rows: seq<Row>, fence: real)
    requires forall i :: 0 <= i < |rows| ==> rows[i].price as real <= fence
    ensures Above(rows, fence) == []
  {
    if rows != [] {
      NoneAbove(rows[1..], fence);
    }
  }

  /** When every price is the same there are no outliers. */
  lemma NoOutliersWhenPricesEqual(rows: seq<Row>)
    requires forall i, j :: 0 <= i < |rows| && 0 <= j < |rows| ==> rows[i].price == rows[j].price
    ensures Outliers(rows) == []
  {
    if rows != [] {
      var v := rows[0].price as real;
      var ps := Prices(rows);
      assert Within(ps, v, v);
      SortWithin(ps, v, v);
      QuantileWithin(Sort(ps), 1, 4, v, v);
      QuantileWithin(Sort(ps), 3, 4, v, v);
      assert Quartiles(rows) == (v, v);
      NoneBelow(rows, LowerFence(rows));
      NoneAbove(rows, UpperFence(rows));
    }
  }

  predicate ExamplePrices(rows: seq<Row>) {
    && |rows| == 5
    && rows[0].price == 10000 && rows[1].price == 20000 && rows[2].price == 30000
    && rows[3].price == 40000 && rows[4].price == 1000000
  }

  const ExampleList: seq<real> := [10000.0, 20000.0, 30000.0, 40000.0, 1000000.0]

  lemma ExampleListSorted()
    ensures Sort(ExampleList) == ExampleList
  {
    SortOfSorted(ExampleList);
  }

  lemma ExampleListQuartiles()
    ensures Quantile(ExampleList, 1, 4) == 20000.0 && Quantile(ExampleList, 3, 4) == 40000.0
  {
    assert Index(5, 1, 4) == 1 && Fraction(5, 1, 4) == 0;
    assert Index(5, 3, 4) == 3 && Fraction(5, 3, 4) == 0;
  }

  lemma ExampleQuartiles(rows: seq<Row>)
    requires ExamplePrices(rows)
    ensures Quartiles(rows) == (20000.0, 40000.0)
  {
    assert Prices(rows) == ExampleList;
    ExampleListSorted();
    ExampleListQuartiles();
  }

  lemma ExampleAbove(rows: seq<Row>)
    requires ExamplePrices(rows)
    ensures Above(rows, 70000.0) == [rows[4]]
  {
    var f := 70000.0;
    assert rows[4..][1..] == [];
    assert Above(rows[4..], f) == [rows[4]];
    assert rows[3..][1..] == rows[4..];
    assert Above(rows[3..], f) == [rows[4]];
    assert rows[2..][1..] == rows[3..];
    assert Above(rows[2..], f) == [rows[4]];
    assert rows[1..][1..] == rows[2..];
    assert Above(rows[1..], f) == [rows[4]];
  }

  /** Prices 10000, 20000, 30000, 40000 and 1000000: Q1 = 20000 and
      Q3 = 40000, the fences are -10000 and 70000, and only the last row is
      an outlier. */
  lemma OnlyTheMillionIsAnOutlier(rows: seq<Row>)
    requires ExamplePrices(rows)
    ensures Quartiles(rows) == (20000.0, 40000.0)
    ensures LowerFence(rows) == -10000.0 && UpperFence(rows) == 70000.0
    ensures Outliers(rows) == [rows[4]]
  {
    ExampleQuartiles(rows);
    NoneBelow(rows, -10000.0);
    ExampleAbove(rows);
  }

  /* ---------------------------------------------------------------------
     Mean and median of the stored prices, before normalisation
     --------------------------------------------------------------------- */

  /** The finite stored prices in table order; NULL prices are skipped. */
  function FinitePrices(t: Table): (ps: seq<real>)
    ensures |ps| <= |t|
  {
    if t == [] then []
    else (if t[0].price.Finite? then [t[0].price.value] else []) + FinitePrices(t[1..])
  }

  /** Every finite stored price is kept and NULL prices are skipped, as the
      `skipna` mean and median do; an infinite price, which makes the mean
      fail before the list is used, is not in it either. */
  lemma {:induction false} FinitePricesKept(t: Table)
    ensures forall x :: x in FinitePrices(t) <==> exists l :: l in t && l.price == Finite(x)
  {
    if t != [] {
      FinitePricesKept(t[1..]);
      assert forall l :: l in t <==> l == t[0] || l in t[1..];
    }
  }

  predicate HasPrice(t: Table, n: Num) {
    exists i :: 0 <= i < |t| && t[i].price == n
  }

  const NanConversion: string := "cannot convert float NaN to integer"
  const InfinityConversion: string := "cannot convert float infinity to integer"

  /** `int(df['price'].mean())`: the mean skips NULL prices; with no price
      left, or with both infinities, it is NaN, and with one infinity it is
      infinite, and converting either to an integer raises. */
  function AveragePrice(t: Table): (r: Result<int>)
    ensures r.Failure? <==> |FinitePrices(t)| == 0 || HasPrice(t, PosInf) || HasPrice(t, NegInf)
    ensures r.Failure? ==> r.error.UnexpectedError?
    ensures r.Failure? ==>
      (r.error.msg == NanConversion <==> (HasPrice(t, PosInf) <==> HasPrice(t, NegInf)))
    ensures r.Success? ==>
      forall l :: l in t ==> l.price.Finite? || l.price.Missing?
  {
    if |FinitePrices(t)| == 0 && !HasPrice(t, PosInf) && !HasPrice(t, NegInf) then
      Failure(UnexpectedError(NanConversion))
    else if HasPrice(t, PosInf) && HasPrice(t, NegInf) then
      Failure(UnexpectedError(NanConversion))
    else if HasPrice(t, PosInf) || HasPrice(t, NegInf) then
      Failure(UnexpectedError(InfinityConversion))
    else Success(Trunc(Mean(FinitePrices(t))))
  }

  /** `int(df['price'].median())`, reached only when the mean converted, so
      every price present is finite. */
  function MedianPrice(t: Table): (m: int)
    requires |FinitePrices(t)| > 0
    ensures var s := Sort(FinitePrices(t));
      |s| == |FinitePrices(t)| && Trunc(s[0]) <= m <= Trunc(s[|s| - 1])
  {
    TruncMedianBetweenEnds(FinitePrices(t));
    Trunc(Median(FinitePrices(t)))
  }

  lemma {:induction false} FinitePricesWithin(t: Table, lo: real, hi: real)
    requires forall l :: l in t && l.price.Finite? ==> lo <= l.price.value <= hi
    ensures Within(FinitePrices(t), lo, hi)
  {
    if t != [] {
      assert forall l :: l in t[1..] ==> l in t;
      FinitePricesWithin(t[1..], lo, hi);
    }
  }

  /** The mean and median of the stored prices lie within any bounds of the
      finite prices, truncated; with non-negative prices both are non-negative. */
  lemma AverageAndMedianWithinPrices(t: Table, lo: real, hi: real)
    requires forall l :: l in t && l.price.Finite? ==> lo <= l.price.value <= hi
    requires AveragePrice(t).Success?
    ensures |FinitePrices(t)| > 0
    ensures Trunc(lo) <= AveragePrice(t).value <= Trunc(hi)
    ensures Trunc(lo) <= MedianPrice(t) <= Trunc(hi)
    ensures lo >= 0.0 ==> AveragePrice(t).value >= 0 && MedianPrice(t) >= 0
  {
    var ps := FinitePrices(t);
    FinitePricesWithin(t, lo, hi);
    MeanBounds(ps, lo, hi);
    MedianBounds(ps, lo, hi);
    TruncMonotone(Mean(ps), hi);
    TruncMonotone(Median(ps), hi);
    TruncMonotone(lo, Mean(ps));
    TruncMonotone(lo, Median(ps));
  }

  lemma TruncMedianBetweenEnds(xs: seq<real>)
    requires |xs| > 0
    ensures |Sort(xs)| == |xs|
    ensures Trunc(Sort(xs)[0]) <= Trunc(Median(xs)) <= Trunc(Sort(xs)[|xs| - 1])
  {
    MedianBetweenEnds(xs);
    TruncMonotone(Sort(xs)[0], Median(xs));
    TruncMonotone(Median(xs), Sort(xs)[|xs| - 1]);
  }

  lemma TruncMonotone(x: real, y: real)
    requires x <= y
    ensures Trunc(x) <= Trunc(y)
  {
  }

  /* ---------------------------------------------------------------------
     The operation
     --------------------------------------------------------------------- */

  /** What a failed open of the database path turns into in the code as
      written: the `finally` block closes `conn`, which was never assigned,
      and the resulting `UnboundLocalError` replaces the `sqlite3.Error`. */
  function OpenFailureAsWritten(reason: string): (e: Error)
    ensures !e.SqliteError?
  {
    UnexpectedError("cannot access local variable 'conn' where it is not associated with a value")
  }

  /** The statistics of the store, or the error the computation raises. */
  function StatisticsOf(access: Access, tables: map<string, Table>): (r: Result<Stats>)
    ensures access.OpenFailed? ==> r == Failure(SqliteError(access.reason))
    ensures !access.OpenFailed? && ListingsTable !in tables ==> r == Failure(MissingTable)
    ensures r.Success? ==> !access.OpenFailed? && ListingsTable in tables
    ensures !access.OpenFailed? && ListingsTable in tables ==>
      var t := tables[ListingsTable];
      && (t == [] <==> r == Success(NoData))
      && (t != [] ==> (r.Success? <==> AveragePrice(t).Success?))
      && (t != [] && AveragePrice(t).Failure? ==> r == Failure(AveragePrice(t).error))
    ensures r.Success? && r.value.Snapshot? ==>
      var (t, s) := (tables[ListingsTable], r.value);
      && s.totalProperties == |t| > 0
      && |FinitePrices(t)| > 0
      && s.averagePrice == AveragePrice(t).value
      && s.medianPrice == MedianPrice(t)
      && s.outliers == Outliers(NormalizeAll(t))
      && s.outliersCount == |s.outliers|
      && (forall o :: o in s.outliers <==>
            o in NormalizeAll(t) && ((o.price as real) < LowerFence(NormalizeAll(t))
                                     || (o.price as real) > UpperFence(NormalizeAll(t))))
  {
    if access.OpenFailed? then Failure(SqliteError(access.reason))
    else if ListingsTable !in tables then Failure(MissingTable)
    else
      var t := tables[ListingsTable];
      if t == [] then Success(NoData)
      else if AveragePrice(t).Failure? then Failure(AveragePrice(t).error)
      else
        var rows := NormalizeAll(t);
        OutliersAreRowsOutsideFences(rows);
        Success(Snapshot(AveragePrice(t).value, MedianPrice(t), |t|, |Outliers(rows)|, Outliers(rows)))
  }

  /** Read the whole table; `{}` when it is empty; otherwise the count, the
      truncated mean and median of the stored prices, then, after
      normalising the rows in place, the outliers and their number are added
      to the dictionary. A failed open is reported as the `sqlite3.Error` it
      is (see OpenFailureAsWritten for the code as written). */
  method CalculateStatistics(access: Access, tables: map<string, Table>) returns (r: Result<Stats>)
    ensures r == StatisticsOf(access, tables)
  {
    if access.OpenFailed? {
      return Failure(SqliteError(access.reason));
    }
    if ListingsTable !in tables {
      return Failure(MissingTable);
    }
    var df := tables[ListingsTable];
    if df == [] {
      return Success(NoData);
    }
    var average := AveragePrice(df);
    if average.Failure? {
      return Failure(average.error);
    }
    var stats := Snapshot(average.value, MedianPrice(df), |df|, 0, []);
    var rows := NormalizeAll(df);
    var outliers := Outliers(rows);
    stats := stats.(outliersCount := |outliers|, outliers := outliers);
    r := Success(stats);
  }

  /** At a fractional position the quantile interpolates linearly: for
      0, 10, 20, 30 the positions 0.75 and 2.25 give 7.5 and 22.5. */
  lemma FractionalQuartiles()
    ensures Sorted([0.0, 10.0, 20.0, 30.0])
    ensures Quantile([0.0, 10.0, 20.0, 30.0], 1, 4) == 7.5
    ensures Quantile([0.0, 10.0, 20.0, 30.0], 3, 4) == 22.5
  {
    assert DivMod(3, 4) == (0, 3);
    assert DivMod(1, 4) == (0, 1) && DivMod(5, 4) == (1, 1) && DivMod(9, 4) == (2, 1);
    assert Index(4, 1, 4) == 0 && Fraction(4, 1, 4) == 3;
    assert Index(4, 3, 4) == 2 && Fraction(4, 3, 4) == 1;
  }

  predicate ExampleTable(t: Table) {
    && |t| == 5
    && t[0].price == Finite(10000.0) && t[1].price == Finite(20000.0) && t[2].price == Finite(30000.0)
    && t[3].price == Finite(40000.0) && t[4].price == Finite(1000000.0)
  }

  lemma ExampleFinitePrices(t: Table)
    requires ExampleTable(t)
    ensures FinitePrices(t) == ExampleList
  {
    var ps := ExampleList;
    assert t[4..][1..] == [];
    assert FinitePrices(t[4..]) == ps[4..];
    assert t[3..][1..] == t[4..];
    assert FinitePrices(t[3..]) == ps[3..];
    assert t[2..][1..] == t[3..];
    assert FinitePrices(t[2..]) == ps[2..];
    assert t[1..][1..] == t[2..];
    assert FinitePrices(t[1..]) == ps[1..];
  }

  lemma ExampleListAverages()
    ensures Trunc(Mean(ExampleList)) == 220000 && Trunc(Median(ExampleList)) == 30000
  {
    var ps := ExampleList;
    assert ps[4..][1..] == [];
    assert Sum(ps[4..]) == 1000000.0;
    assert ps[3..][1..] == ps[4..];
    assert Sum(ps[3..]) == 1040000.0;
    assert ps[2..][1..] == ps[3..];
    assert Sum(ps[2..]) == 1070000.0;
    assert ps[1..][1..] == ps[2..];
    assert Sum(ps[1..]) == 1090000.0;
    assert Sum(ps) == 1100000.0;
    ExampleListSorted();
  }

  /** The stored prices 10000, 20000, 30000, 40000, 1000000 give a mean of
      220000 and a median of 30000. */
  lemma ExampleAverages(t: Table)
    requires ExampleTable(t)
    ensures AveragePrice(t) == Success(220000) && MedianPrice(t) == 30000
  {
    ExampleFinitePrices(t);
    assert !HasPrice(t, PosInf) && !HasPrice(t, NegInf);
    assert AveragePrice(t) == Success(Trunc(Mean(ExampleList)));
    ExampleListAverages();
  }

  lemma ExampleNormalized(t: Table)
    requires ExampleTable(t)
    ensures ExamplePrices(NormalizeAll(t))
  {
    var rows := NormalizeAll(t);
    assert rows[0].price == Trunc(10000.0) == 10000;
    assert rows[1].price == Trunc(20000.0) == 20000;
    assert rows[2].price == Trunc(30000.0) == 30000;
    assert rows[3].price == Trunc(40000.0) == 40000;
    assert rows[4].price == Trunc(1000000.0) == 1000000;
  }

  /** The whole dictionary for the stored prices 10000, 20000, 30000,
      40000, 1000000: mean 220000, median 30000, five properties, and the
      1000000 row as the one outlier. */
  lemma ExampleStatistics(access: Access, tables: map<string, Table>)
    requires !access.OpenFailed? && ListingsTable in tables && ExampleTable(tables[ListingsTable])
    ensures var t := tables[ListingsTable];
      StatisticsOf(access, tables) == Success(Snapshot(220000, 30000, 5, 1, [Normalize(t[4])]))
  {
    var t := tables[ListingsTable];
    ExampleAverages(t);
    ExampleNormalized(t);
    OnlyTheMillionIsAnOutlier(NormalizeAll(t));
  }
}
