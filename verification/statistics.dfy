/**
  The statistics of one column (src/utils.rs): `column_mean`, `column_std`
  (up to its variance) and `column_median`, each over the numeric series of
  the column built by `Columns.Series`.
*/
module Statistics {

  import opened Wrappers
  import opened Columns
  import opened Sorting

  /** The total of a series, accumulated front to back. */
  function Sum(xs: seq<real>): real {
    if xs == [] then 0.0 else Sum(xs[..|xs| - 1]) + xs[|xs| - 1]
  }

  /** The least value of a non-empty series. */
  function Min(xs: seq<real>): (m: real)
    requires |xs| > 0
    ensures m in xs
    ensures forall i :: 0 <= i < |xs| ==> m <= xs[i]
  {
    if |xs| == 1 then xs[0]
    else
      var rest := Min(xs[..|xs| - 1]);
      if xs[|xs| - 1] < rest then xs[|xs| - 1] else rest
  }

  /** The greatest value of a non-empty series. */
  function Max(xs: seq<real>): (m: real)
    requires |xs| > 0
    ensures m in xs
    ensures forall i :: 0 <= i < |xs| ==> xs[i] <= m
  {
    if |xs| == 1 then xs[0]
    else
      var rest := Max(xs[..|xs| - 1]);
      if xs[|xs| - 1] > rest then xs[|xs| - 1] else rest
  }

  /** The mean as `column_mean` defines it: `sum / count`, or 0.0 when nothing parsed. */
  function MeanOf(xs: seq<real>): real {
    if |xs| == 0 then 0.0 else Sum(xs) / (|xs| as real)
  }

  /** A series whose values lie in `[lo, hi]` has a total between `n * lo` and `n * hi`. */
  lemma {:induction false} SumBounds(xs: seq<real>, lo: real, hi: real)
    requires forall i :: 0 <= i < |xs| ==> lo <= xs[i] <= hi
    ensures (|xs| as real) * lo <= Sum(xs) <= (|xs| as real) * hi
  {
    if xs != [] {
      SumBounds(xs[..|xs| - 1], lo, hi);
    }
  }

  /** Dividing a total between `n * lo` and `n * hi` by a positive `n` gives a value in `[lo, hi]`. */
  lemma QuotientBounds(total: real, n: real, lo: real, hi: real)
    requires n > 0.0 && n * lo <= total <= n * hi
    ensures lo <= total / n <= hi
  {
  }

  /** The mean of a non-empty series lies between its least and greatest values. */
  lemma {:induction false} MeanBounds(xs: seq<real>)
    requires |xs| > 0
    ensures Min(xs) <= MeanOf(xs) <= Max(xs)
  {
    var lo, hi, n, total := Min(xs), Max(xs), |xs| as real, Sum(xs);
    assert n * lo <= total <= n * hi by {
      SumBounds(xs, lo, hi);
    }
    assert lo <= total / n <= hi by {
      QuotientBounds(total, n, lo, hi);
    }
    assert MeanOf(xs) == total / n;
  }

  /** A series of `n` copies of `c` totals `n * c`. */
  lemma {:induction false} SumConstant(xs: seq<real>, c: real)
    requires forall i :: 0 <= i < |xs| ==> xs[i] == c
    ensures Sum(xs) == (|xs| as real) * c
  {
    if xs != [] {
      SumConstant(xs[..|xs| - 1], c);
    }
  }

  /**
    `column_mean`: one pass over the rows, adding every cell that parses to
    `sum` and counting it in `count`; the mean is `sum / count`, or 0.0 when
    no cell parsed.
  */
  method ColumnMean(parse: Parser, rows: Grid, col: nat) returns (mean: real)
    ensures mean == MeanOf(Series(parse, rows, col))
    ensures |Series(parse, rows, col)| == 0 ==> mean == 0.0
    ensures |Series(parse, rows, col)| > 0 ==>
              Min(Series(parse, rows, col)) <= mean <= Max(Series(parse, rows, col))
  {
    var sum := 0.0;
    var count: nat := 0;
    for i := 0 to |rows|
      invariant sum == Sum(Series(parse, rows[..i], col))
      invariant count == |Series(parse, rows[..i], col)|
    {
      ghost var before := Series(parse, rows[..i], col);
      assert rows[..i + 1][..i] == rows[..i];
      var row := rows[i];
      assert Series(parse, rows[..i + 1], col) == before + RowValues(parse, row, col);
      if col < |row| {
        var parsed := parse(row[col]);
        if parsed.Some? {
          assert RowValues(parse, row, col) == [parsed.value];
          assert (before + [parsed.value])[..|before|] == before;
          sum := sum + parsed.value;
          count := count + 1;
        } else {
          assert before + RowValues(parse, row, col) == before;
        }
      } else {
        assert before + RowValues(parse, row, col) == before;
      }
    }
    assert rows[..|rows|] == rows;
    mean := if count > 0 then sum / count as real else 0.0;
    ghost var series := Series(parse, rows, col);
    assert mean == MeanOf(series);
    if count > 0 {
      MeanBounds(series);
    }
  }

  /** The sum of the squared deviations of a series from `m`. */
  function SquaredDeviations(xs: seq<real>, m: real): (r: real)
    ensures r >= 0.0
  {
    if xs == [] then 0.0
    else
      var d := m - xs[|xs| - 1];
      SquaredDeviations(xs[..|xs| - 1], m) + d * d
  }

  /**
    The sample variance of a series as `column_std` computes it before the
    square root: 0.0 for fewer than two values, otherwise the squared
    deviations from the mean divided by `n - 1`.
  */
  function Variance(xs: seq<real>): (v: real)
    ensures v >= 0.0
  {
    var n := |xs|;
    if n < 2 then 0.0
    else
      var total := SquaredDeviations(xs, MeanOf(xs));
      var v := total / ((n as real) - 1.0);
      assert v * ((n as real) - 1.0) == total;
      v
  }

  /** The variance that `column_std` takes the square root of, for column `col`. */
  function ColumnVariance(parse: Parser, rows: Grid, col: nat): (v: real)
    ensures v >= 0.0
    ensures |Series(parse, rows, col)| < 2 ==> v == 0.0
  {
    Variance(Series(parse, rows, col))
  }

  /** Only zero squares to zero. */
  lemma SquareZero(d: real)
    ensures d * d == 0.0 ==> d == 0.0
  {
    if d != 0.0 {
      assert (d * d) / d == d;
    }
  }

  /** The squared deviations from `m` vanish exactly when every value is `m`. */
  lemma {:induction false} SquaredDeviationsZeroIff(xs: seq<real>, m: real)
    ensures SquaredDeviations(xs, m) == 0.0 <==> forall i :: 0 <= i < |xs| ==> xs[i] == m
  {
    if xs != [] {
      var init, last := xs[..|xs| - 1], xs[|xs| - 1];
      var d := m - last;
      SquaredDeviationsZeroIff(init, m);
      assert SquaredDeviations(xs, m) == SquaredDeviations(init, m) + d * d;
      assert (forall i :: 0 <= i < |xs| ==> xs[i] == m)
             <==> (forall i :: 0 <= i < |init| ==> init[i] == m) && last == m;
      if SquaredDeviations(xs, m) == 0.0 {
        assert d * d <= 0.0;
        SquareZero(d);
      }
    }
  }

  /** All values of a series are equal. */
  predicate Constant(xs: seq<real>) {
    forall i, j :: 0 <= i < |xs| && 0 <= j < |xs| ==> xs[i] == xs[j]
  }

  /** The variance of a series is zero exactly when all its values are equal. */
  lemma VarianceZeroIff(xs: seq<real>)
    ensures Variance(xs) == 0.0 <==> Constant(xs)
  {
    var n := |xs|;
    if n >= 2 {
      var mean := MeanOf(xs);
      SquaredDeviationsZeroIff(xs, mean);
      assert Variance(xs) == 0.0 <==> SquaredDeviations(xs, mean) == 0.0;
      if Constant(xs) {
        SumConstant(xs, xs[0]);
        assert mean == xs[0];
      }
    }
  }

  /** The variance of column `col` is zero exactly when its parsed values are all equal. */
  lemma ColumnVarianceZeroIff(parse: Parser, rows: Grid, col: nat)
    ensures ColumnVariance(parse, rows, col) == 0.0 <==> Constant(Series(parse, rows, col))
  {
    VarianceZeroIff(Series(parse, rows, col));
  }

  /**
    The median rule of `column_median` on an ascending series: the middle
    element for an odd length, the average of the two middle elements for an
    even length.
  */
  function Middle(t: seq<real>): real
    requires |t| > 0
  {
    var mid := |t| / 2;
    if |t| % 2 == 0 then (t[mid - 1] + t[mid]) / 2.0 else t[mid]
  }

  /** The median of a series: absent when it is empty, otherwise the middle of its ascending arrangement. */
  function MedianOf(xs: seq<real>): (r: Option<real>)
    ensures r.None? <==> |xs| == 0
  {
    if |xs| == 0 then None else Some(Middle(SortSeq(xs)))
  }

  /** The middle of an ascending series lies between its first and last elements. */
  lemma MiddleBetween(t: seq<real>)
    requires |t| > 0 && Sorted(t)
    ensures t[0] <= Middle(t) <= t[|t| - 1]
  {
  }

  /** On an already ascending series the median is the middle rule applied directly. */
  lemma MedianOfSorted(xs: seq<real>)
    requires |xs| > 0 && Sorted(xs)
    ensures MedianOf(xs) == Some(Middle(xs))
  {
    SortedUnique(SortSeq(xs), xs);
  }

  /** The median of a non-empty series lies between its least and greatest values. */
  lemma MedianBounds(xs: seq<real>)
    requires |xs| > 0
    ensures Min(xs) <= MedianOf(xs).value <= Max(xs)
  {
    var t := SortSeq(xs);
    assert |t| == |multiset(t)| == |multiset(xs)| == |xs|;
    assert t[0] in multiset(xs) && t[|t| - 1] in multiset(xs);
    MiddleBetween(t);
  }

  /** The median depends only on the values of the series, not on their order. */
  lemma MedianPermutation(xs: seq<real>, ys: seq<real>)
    requires multiset(xs) == multiset(ys)
    ensures MedianOf(xs) == MedianOf(ys)
  {
    assert |xs| == |multiset(xs)| == |multiset(ys)| == |ys|;
    SortSeqPermutation(xs, ys);
  }

  /** Reordering the rows of the grid leaves the median of every column unchanged. */
  lemma ColumnMedianRowOrder(parse: Parser, rows: Grid, others: Grid, col: nat)
    requires multiset(rows) == multiset(others)
    ensures MedianOf(Series(parse, rows, col)) == MedianOf(Series(parse, others, col))
  {
    SeriesPermutation(parse, rows, others, col);
    MedianPermutation(Series(parse, rows, col), Series(parse, others, col));
  }

  /** The middle selection of `column_median` on its sorted buffer. */
  method SelectMiddle(values: array<real>) returns (m: real)
    requires values.Length > 0
    ensures m == Middle(values[..])
  {
    var len := values.Length;
    var mid := len / 2;
    if len % 2 == 0 {
      m := (values[mid - 1] + values[mid]) / 2.0;
    } else {
      m := values[mid];
    }
  }

  /**
    `column_median`: collects the series into a buffer, returns `None` when
    it is empty, sorts the buffer in place and applies the middle rule.
  */
  method ColumnMedian(parse: Parser, rows: Grid, col: nat) returns (r: Option<real>)
    ensures r == MedianOf(Series(parse, rows, col))
    ensures r.None? <==> |Series(parse, rows, col)| == 0
    ensures r.Some? ==> Min(Series(parse, rows, col)) <= r.value <= Max(Series(parse, rows, col))
  {
    var series := Series(parse, rows, col);
    if |series| == 0 {
      return None;
    }
    var values := new real[|series|](k requires 0 <= k < |series| => series[k]);
    assert values[..] == series;
    SortInPlace(values);
    var m := SelectMiddle(values);
    r := Some(m);
    MedianBounds(series);
  }
}
