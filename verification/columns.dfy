/**
  Columns of a grid of string cells: projecting a column across the rows,
  classifying each cell as numeric or not, counting the classes and building
  the numeric series of a column (src/utils.rs).

  A grid is the already-parsed CSV body: a sequence of rows, each a sequence
  of string cells. Rows may be shorter than the column asked for; such a row
  has no cell there (`row.get(col_idx)` is `None`).

  Parsing a cell as a 64-bit float is an external collaborator. It is a
  parameter `parse` of every operation: `Some(v)` when the text is a float
  literal with value `v`, `None` when parsing fails. Values are reals, so
  there is no NaN and every two parsed values compare.
*/
module Columns {

  import opened Wrappers

  type Row = seq<string>
  type Grid = seq<Row>
  type Parser = string -> Option<real>

  /** The cell of `row` at column `col`, if the row is long enough (`row.get(col_idx)`). */
  function Cell(row: Row, col: nat): (c: Option<string>)
    ensures c.Some? <==> col < |row|
    ensures c.Some? ==> c.value == row[col]
  {
    if col < |row| then Some(row[col]) else None
  }

  /** The parsed value of the cell, if there is a cell and it parses (`row.get(col_idx)?.parse().ok()`). */
  function Value(parse: Parser, row: Row, col: nat): Option<real> {
    match Cell(row, col)
    case None => None
    case Some(text) => parse(text)
  }

  /** A row that is too short to have a cell at `col`. */
  predicate IsShort(row: Row, col: nat) {
    |row| <= col
  }

  /** A cell that exists and does not parse (`row.get(col_idx).map_or(false, |v| v.parse().is_err())`). */
  predicate IsNa(parse: Parser, row: Row, col: nat) {
    match Cell(row, col)
    case None => false
    case Some(text) => parse(text).None?
  }

  /** `column_rows`: the number of rows, whatever their cells hold. */
  function ColumnRows(rows: Grid): (n: nat)
    ensures n == |rows|
  {
    |rows|
  }

  /** `column_nas`: the number of rows whose cell at `col` exists and fails to parse. */
  function ColumnNas(parse: Parser, rows: Grid, col: nat): (n: nat)
    ensures n <= |rows|
  {
    if rows == [] then 0
    else
      var last := rows[|rows| - 1];
      ColumnNas(parse, rows[..|rows| - 1], col) + (if IsNa(parse, last, col) then 1 else 0)
  }

  /** The number of rows too short to have a cell at `col`. */
  function ShortRows(rows: Grid, col: nat): (n: nat)
    ensures n <= |rows|
    ensures n == 0 <==> forall i :: 0 <= i < |rows| ==> !IsShort(rows[i], col)
  {
    if rows == [] then 0
    else
      var last := rows[|rows| - 1];
      ShortRows(rows[..|rows| - 1], col) + (if IsShort(last, col) then 1 else 0)
  }

  /** What one row contributes to the numeric series: its parsed value, or nothing. */
  function RowValues(parse: Parser, row: Row, col: nat): (s: seq<real>)
    ensures |s| <= 1
    ensures |s| == 1 <==> Value(parse, row, col).Some?
    ensures |s| == 1 ==> s[0] == Value(parse, row, col).value
  {
    match Value(parse, row, col)
    case None => []
    case Some(v) => [v]
  }

  /**
    The numeric series of column `col`: the parsed values in row order,
    skipping rows whose cell is absent or does not parse (the `filter_map`
    pipeline shared by `column_std` and `column_median`, and the values
    accumulated by the loop of `column_mean`).
  */
  function Series(parse: Parser, rows: Grid, col: nat): (s: seq<real>)
    ensures |s| <= |rows|
  {
    if rows == [] then []
    else Series(parse, rows[..|rows| - 1], col) + RowValues(parse, rows[|rows| - 1], col)
  }

  /** Every row is exactly one of: too short, NA, or contributing a value to the series. */
  lemma RowClasses(parse: Parser, row: Row, col: nat)
    ensures (if IsShort(row, col) then 1 else 0) + (if IsNa(parse, row, col) then 1 else 0)
            + |RowValues(parse, row, col)| == 1
  {
  }

  /** `column_nas` plus the series length plus the short rows is `column_rows`. */
  lemma {:induction false} RowsPartition(parse: Parser, rows: Grid, col: nat)
    ensures ColumnNas(parse, rows, col) + |Series(parse, rows, col)| + ShortRows(rows, col)
            == ColumnRows(rows)
  {
    if rows != [] {
      RowsPartition(parse, rows[..|rows| - 1], col);
      RowClasses(parse, rows[|rows| - 1], col);
    }
  }

  /** When every row has a cell at `col`, the NA count and the series length add up to `column_rows`. */
  lemma FullRowsPartition(parse: Parser, rows: Grid, col: nat)
    requires forall i :: 0 <= i < |rows| ==> col < |rows[i]|
    ensures ColumnNas(parse, rows, col) + |Series(parse, rows, col)| == ColumnRows(rows)
  {
    RowsPartition(parse, rows, col);
  }

  /** The NA count is zero exactly when no row has a cell at `col` that fails to parse. */
  lemma {:induction false} NasZeroIff(parse: Parser, rows: Grid, col: nat)
    ensures ColumnNas(parse, rows, col) == 0
            <==> forall i :: 0 <= i < |rows| ==> !IsNa(parse, rows[i], col)
  {
    if rows != [] {
      var init := rows[..|rows| - 1];
      NasZeroIff(parse, init, col);
      assert forall i :: 0 <= i < |init| ==> init[i] == rows[i];
    }
  }

  /** A column whose every present cell parses has no NAs. */
  lemma AllNumericNoNas(parse: Parser, rows: Grid, col: nat)
    requires forall i :: 0 <= i < |rows| && col < |rows[i]| ==> parse(rows[i][col]).Some?
    ensures ColumnNas(parse, rows, col) == 0
  {
    NasZeroIff(parse, rows, col);
  }

  /** The series of two blocks of rows is the series of the first followed by that of the second. */
  lemma {:induction false} SeriesConcat(parse: Parser, a: Grid, b: Grid, col: nat)
    ensures Series(parse, a + b, col) == Series(parse, a, col) + Series(parse, b, col)
  {
    if b != [] {
      var ab := a + b;
      assert ab[..|ab| - 1] == a + b[..|b| - 1];
      assert ab[|ab| - 1] == b[|b| - 1];
      SeriesConcat(parse, a, b[..|b| - 1], col);
    } else {
      assert a + b == a;
    }
  }

  /** The series of a single row is what that row contributes. */
  lemma SeriesSingle(parse: Parser, row: Row, col: nat)
    ensures Series(parse, [row], col) == RowValues(parse, row, col)
  {
  }

  /**
    A row whose cell parses puts its value into the series, at the position
    given by the number of values from the rows before it.
  */
  lemma SeriesAt(parse: Parser, rows: Grid, col: nat, i: nat)
    requires i < |rows| && Value(parse, rows[i], col).Some?
    ensures |Series(parse, rows[..i], col)| < |Series(parse, rows, col)|
    ensures Series(parse, rows, col)[|Series(parse, rows[..i], col)|] == Value(parse, rows[i], col).value
  {
    assert rows == rows[..i] + ([rows[i]] + rows[i + 1..]);
    SeriesConcat(parse, rows[..i], [rows[i]] + rows[i + 1..], col);
    SeriesConcat(parse, [rows[i]], rows[i + 1..], col);
    SeriesSingle(parse, rows[i], col);
  }

  /** Values keep row order: an earlier parsing row lands strictly before any later row's value. */
  lemma SeriesRowOrder(parse: Parser, rows: Grid, col: nat, i: nat, j: nat)
    requires i < j <= |rows| && Value(parse, rows[i], col).Some?
    ensures |Series(parse, rows[..i], col)| < |Series(parse, rows[..j], col)|
  {
    var pre := rows[..j];
    assert pre[..i] == rows[..i] && pre[i] == rows[i];
    SeriesAt(parse, pre, col, i);
  }

  /** Every value of the series comes from a row whose cell parses to it, at that row's position. */
  lemma {:induction false} SeriesFromRows(parse: Parser, rows: Grid, col: nat, k: nat)
    requires k < |Series(parse, rows, col)|
    ensures exists i :: 0 <= i < |rows| && Value(parse, rows[i], col) == Some(Series(parse, rows, col)[k])
                        && |Series(parse, rows[..i], col)| == k
  {
    var n := |rows|;
    var init, last := rows[..n - 1], rows[n - 1];
    var s := Series(parse, rows, col);
    assert s == Series(parse, init, col) + RowValues(parse, last, col);
    if k < |Series(parse, init, col)| {
      SeriesFromRows(parse, init, col, k);
      var i :| 0 <= i < |init| && Value(parse, init[i], col) == Some(Series(parse, init, col)[k])
               && |Series(parse, init[..i], col)| == k;
      assert init[..i] == rows[..i] && init[i] == rows[i];
      assert s[k] == Series(parse, init, col)[k];
    } else {
      assert rows[..n - 1] == init;
      assert Value(parse, rows[n - 1], col) == Some(s[k]);
    }
  }

  /** Reordering the rows reorders the series and changes none of its values. */
  lemma {:induction false} SeriesPermutation(parse: Parser, rows: Grid, others: Grid, col: nat)
    requires multiset(rows) == multiset(others)
    ensures multiset(Series(parse, rows, col)) == multiset(Series(parse, others, col))
    decreases |rows|
  {
    if rows == [] {
      assert |others| == |multiset(others)| == 0;
    } else {
      var n := |rows|;
      var last := rows[n - 1];
      var init := rows[..n - 1];
      assert rows == init + [last];
      assert last in multiset(others);
      var k :| 0 <= k < |others| && others[k] == last;
      var rest := others[..k] + others[k + 1..];
      assert others == others[..k] + [last] + others[k + 1..];
      assert multiset(others) == multiset(others[..k]) + multiset{last} + multiset(others[k + 1..]);
      assert multiset(rows) == multiset(init) + multiset{last};
      assert multiset(rest) == multiset(others[..k]) + multiset(others[k + 1..]);
      assert multiset(rest) == multiset(others) - multiset{last};
      assert multiset(init) == multiset(rows) - multiset{last};
      SeriesPermutation(parse, init, rest, col);
      SeriesConcat(parse, others[..k] + [last], others[k + 1..], col);
      SeriesConcat(parse, others[..k], [last], col);
      SeriesConcat(parse, others[..k], others[k + 1..], col);
      SeriesSingle(parse, last, col);
    }
  }
}
