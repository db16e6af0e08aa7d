/**
  Concrete columns worked through the model. Each lemma fixes how the cell
  parser treats the cells involved (as a 64-bit float parser does) and then
  states the statistics of the column.
*/
module WorkedCases {

  import opened Wrappers
  import opened Columns
  import opened Statistics

  /** The sums of the first one, two and three values of `[a, b, c]`. */
  lemma SumOfThree(a: real, b: real, c: real)
    ensures Sum([a]) == a && Sum([a, b]) == a + b && Sum([a, b, c]) == a + b + c
  {
    assert [a, b, c][..2] == [a, b];
    assert [a, b][..1] == [a];
    assert [a][..0] == [];
  }

  /** A column mixing numbers, text and an empty cell: two NAs, series `[1.5, 2.5]`, mean 2.0. */
  lemma MixedColumn(parse: Parser)
    requires parse("1.5") == Some(1.5) && parse("2.5") == Some(2.5)
    requires parse("abc") == None && parse("") == None
    ensures var rows := [["1.5"], ["abc"], [""], ["2.5"]];
            && ColumnNas(parse, rows, 0) == 2
            && Series(parse, rows, 0) == [1.5, 2.5]
            && MeanOf(Series(parse, rows, 0)) == 2.0
  {
    var r1, r2, r3, r4 := ["1.5"], ["abc"], [""], ["2.5"];
    assert [r1, r2, r3, r4][..3] == [r1, r2, r3];
    assert [r1, r2, r3][..2] == [r1, r2];
    assert [r1, r2][..1] == [r1];
    assert [r1][..0] == [];
    assert Series(parse, [r1, r2], 0) == [1.5];
    assert ColumnNas(parse, [r1, r2], 0) == 1;
    assert Series(parse, [r1, r2, r3, r4], 0) == [1.5, 2.5];
    SumOfThree(1.5, 2.5, 0.0);
  }

  /** The column `1, 2, 3`: mean 2.0, sample variance (and so standard deviation) 1.0, median 2.0. */
  lemma OneTwoThree(parse: Parser)
    requires parse("1") == Some(1.0) && parse("2") == Some(2.0) && parse("3") == Some(3.0)
    ensures var rows := [["1"], ["2"], ["3"]];
            && Series(parse, rows, 0) == [1.0, 2.0, 3.0]
            && MeanOf(Series(parse, rows, 0)) == 2.0
            && ColumnVariance(parse, rows, 0) == 1.0
            && MedianOf(Series(parse, rows, 0)) == Some(2.0)
  {
    var r1, r2, r3 := ["1"], ["2"], ["3"];
    assert [r1, r2, r3][..2] == [r1, r2];
    assert [r1, r2][..1] == [r1];
    assert [r1][..0] == [];
    assert Series(parse, [r1], 0) == [1.0];
    assert Series(parse, [r1, r2], 0) == [1.0, 2.0];
    var xs := Series(parse, [r1, r2, r3], 0);
    assert xs == [1.0, 2.0, 3.0];
    SumOfThree(1.0, 2.0, 3.0);
    assert MeanOf(xs) == 2.0;
    assert xs[..2] == [1.0, 2.0] && xs[..2][..1] == [1.0] && xs[..2][..1][..0] == [];
    assert SquaredDeviations(xs[..1], 2.0) == 1.0;
    assert SquaredDeviations(xs[..2], 2.0) == 1.0;
    assert SquaredDeviations(xs, 2.0) == 2.0;
    MedianOfSorted(xs);
  }

  /** The column `1, 2, 3, 4` has the series `[1.0, 2.0, 3.0, 4.0]`. */
  lemma OneToFourSeries(parse: Parser)
    requires parse("1") == Some(1.0) && parse("2") == Some(2.0)
    requires parse("3") == Some(3.0) && parse("4") == Some(4.0)
    ensures Series(parse, [["1"], ["2"], ["3"], ["4"]], 0) == [1.0, 2.0, 3.0, 4.0]
  {
    var r1, r2, r3, r4 := ["1"], ["2"], ["3"], ["4"];
    assert [r1, r2, r3, r4][..3] == [r1, r2, r3];
    assert [r1, r2, r3][..2] == [r1, r2];
    assert [r1, r2][..1] == [r1];
    assert [r1][..0] == [];
    assert Series(parse, [r1], 0) == [1.0];
    assert Series(parse, [r1, r2], 0) == [1.0, 2.0];
    assert Series(parse, [r1, r2, r3], 0) == [1.0, 2.0, 3.0];
  }

  /** The median of four ascending values averages the two middle ones. */
  lemma MedianOfFour(xs: seq<real>)
    requires |xs| == 4 && xs[0] <= xs[1] <= xs[2] <= xs[3]
    ensures MedianOf(xs) == Some((xs[1] + xs[2]) / 2.0)
  {
    MedianOfSorted(xs);
  }

  /** The column `1, 2, 3, 4`: the median averages the two middle values, 2.5. */
  lemma EvenMedian(parse: Parser)
    requires parse("1") == Some(1.0) && parse("2") == Some(2.0)
    requires parse("3") == Some(3.0) && parse("4") == Some(4.0)
    ensures MedianOf(Series(parse, [["1"], ["2"], ["3"], ["4"]], 0)) == Some(2.5)
  {
    OneToFourSeries(parse);
    MedianOfFour(Series(parse, [["1"], ["2"], ["3"], ["4"]], 0));
  }

  /** A row too short for the column is neither an NA nor a value: it is only counted by `column_rows`. */
  lemma ShortRowIsNotNa(parse: Parser)
    requires parse("1") == Some(1.0)
    ensures var rows := [["a", "1"], ["b"]];
            && ColumnRows(rows) == 2
            && ColumnNas(parse, rows, 1) == 0
            && Series(parse, rows, 1) == [1.0]
            && ShortRows(rows, 1) == 1
  {
  }

  /** A column where nothing parses: mean and variance fall back to 0.0 and the median is absent. */
  lemma NothingParses(parse: Parser)
    requires parse("x") == None && parse("") == None
    ensures var rows := [["x"], [""]];
            && ColumnNas(parse, rows, 0) == 2
            && Series(parse, rows, 0) == []
            && MeanOf(Series(parse, rows, 0)) == 0.0
            && ColumnVariance(parse, rows, 0) == 0.0
            && MedianOf(Series(parse, rows, 0)) == None
  {
  }
}
