# quickcsv column statistics, modelled in Dafny

quickcsv loads a CSV file and prints a preview plus a per-column summary. The
summary comes from five functions in `src/utils.rs`. Each takes the grid of
string cells and a column index:

- `column_rows`: the number of rows;
- `column_nas`: how many rows have a cell in the column that does not parse as
  a float;
- `column_mean`: the mean of the cells that parse, or 0.0 when none does;
- `column_std`: the sample standard deviation of those values, or 0.0 when
  fewer than two parse;
- `column_median`: the median of those values, or `None` when none parses.

The model has four modules.

- `Columns` (`columns.dfy`) projects a column across the rows. It classifies
  each row as *short* (no cell at that index), *NA* (a cell that does not
  parse) or *numeric*. It counts the classes and builds the numeric series:
  the parsed values in row order.
- `Statistics` (`statistics.dfy`) covers the three statistics. `column_mean`
  is a method with the source's accumulating loop. `column_std` is a function
  that stops at the variance. `column_median` is a method that collects the
  series into an array, sorts the array in place and selects the middle.
  Every statistic works on the same series function, `Columns.Series`, so
  all three build the same series.
- `Sorting` (`sorting.dfy`) specifies ascending order with a functional
  insertion sort, `SortSeq`. It proves that a sorted permutation is unique.
  It also holds the in-place insertion sort that the median method uses.
- `WorkedCases` (`worked_cases.dfy`) works through concrete columns.

Parsing a cell as a 64-bit float is the parameter `parse: string ->
Option<real>` of every operation. Values are reals, so no value is NaN and
every two values compare. The worked cases state how `parse` treats the cells
they use.

`column_nas` follows the code. A row too short to have the cell is not counted
as NA, because `map_or(false, …)` at src/utils.rs:8 makes it `false`. So
"NA count + series length = row count" holds only when every row has the
cell. In general the relation is NA count + series length + short rows = row
count (`RowsPartition`). `ShortRowIsNotNa` shows a concrete grid where a short
row is neither NA nor numeric. Short rows cannot reach these functions through
src/main.rs. Its `csv::Reader::from_reader` (src/main.rs:14) rejects records of
unequal length, and that error stops the run at src/main.rs:25. So the short-row
class matters only to other callers of the functions.

## Model

| member | source | states |
|---|---|---|
| Columns.Cell | src/utils.rs:8 | `row.get(col_idx)`: a cell exists exactly when the column index is inside the row, and then it is that row's entry |
| Columns.ColumnRows | src/utils.rs:2-4 | `column_rows` is the number of rows, whatever the cells hold |
| Columns.ColumnNas | src/utils.rs:6-12 | `column_nas` counts rows whose cell exists and fails to parse, and never exceeds the number of rows |
| Columns.ShortRows | src/utils.rs:8 | the count of rows too short for the column is at most the row count, and is zero exactly when every row has the cell |
| Columns.RowValues | src/utils.rs:17-21 | one row contributes at most one value: exactly one when its cell exists and parses, and then the parsed value |
| Columns.Series | src/utils.rs:15-22 | the `filter_map` series has at most one value per row |
| Columns.RowClasses | src/utils.rs:8 | every row is exactly one of short, NA or numeric |
| Columns.RowsPartition | src/utils.rs:2-21 | NA count + series length + short rows = `column_rows` |
| Columns.FullRowsPartition | src/utils.rs:6-22 | when every row has a cell at the column, NA count + series length = `column_rows` |
| Columns.NasZeroIff | src/utils.rs:6-12 | `column_nas` is 0 if and only if no row has an unparseable cell at the column |
| Columns.AllNumericNoNas | src/utils.rs:6-12 | a column whose every present cell parses has NA count 0 |
| Columns.SeriesConcat | src/utils.rs:15-22 | the series of two blocks of rows is the first block's series followed by the second's |
| Columns.SeriesSingle | src/utils.rs:17-21 | the series of one row is that row's parsed value, if any |
| Columns.SeriesAt | src/utils.rs:15-22 | a row whose cell parses puts its value into the series, at the index equal to the number of values from earlier rows |
| Columns.SeriesRowOrder | src/utils.rs:15-22 | series values keep row order: a parsing row's value comes before every value from later rows |
| Columns.SeriesFromRows | src/utils.rs:15-22 | every series value comes from a row whose cell parses to it, at that row's position: nothing is invented |
| Columns.SeriesPermutation | src/utils.rs:66-73 | reordering the rows permutes the series and keeps the same values |
| Sorting.Insert | src/utils.rs:79 | inserting adds exactly one copy of the value to the elements |
| Sorting.InsertAbove | src/utils.rs:79 | inserting a value at least `lo` into values at least `lo` keeps every element at least `lo` |
| Sorting.InsertSorted | src/utils.rs:79 | inserting into an ascending sequence keeps it ascending |
| Sorting.SortSeq | src/utils.rs:79 | the specification of the sort: an ascending permutation of the input |
| Sorting.SortedHeadLeast | src/utils.rs:79 | the first element of an ascending sequence is at most every element |
| Sorting.SortedUnique | src/utils.rs:79 | two ascending sequences with the same elements are equal, so any correct sort gives the same buffer |
| Sorting.SortSeqPermutation | src/utils.rs:79 | the sorted arrangement depends only on the elements, not on their order |
| Sorting.SwapDown | src/utils.rs:79 | exchanging two neighbours changes only those two and keeps the elements |
| Sorting.InsertLast | src/utils.rs:79 | one insertion-sort step extends the ascending prefix by one and keeps the elements |
| Sorting.SortInPlace | src/utils.rs:79 | `values.sort_by(...)` in place: the array becomes the ascending arrangement of its old contents |
| Statistics.Min | src/utils.rs:79-89 | the least value of a non-empty series is in it and at most every value |
| Statistics.Max | src/utils.rs:79-89 | the greatest value of a non-empty series is in it and at least every value |
| Statistics.MeanBounds | src/utils.rs:55-59 | a non-empty series' `sum / count` lies between its least and greatest value |
| Statistics.ColumnMean | src/utils.rs:42-62 | the loop accumulates the series total and length. The result is the series mean, 0.0 when nothing parsed, and otherwise between the least and greatest value |
| Statistics.SquaredDeviations | src/utils.rs:31-37 | the sum of squared deviations is non-negative |
| Statistics.Variance | src/utils.rs:24-37 | the sample variance (squared deviations from the mean over `n - 1`, or 0.0 below two values) is non-negative |
| Statistics.ColumnVariance | src/utils.rs:14-37 | the variance under `column_std`'s square root is non-negative, and 0.0 when fewer than two cells parse |
| Statistics.SquaredDeviationsZeroIff | src/utils.rs:31-37 | the squared deviations from `m` are zero exactly when every value equals `m` |
| Statistics.VarianceZeroIff | src/utils.rs:24-37 | the variance is zero exactly when all values of the series are equal |
| Statistics.ColumnVarianceZeroIff | src/utils.rs:14-37 | a column's variance is zero exactly when its parsed values are all equal |
| Statistics.MedianOf | src/utils.rs:75-89 | the median is absent exactly when the series is empty |
| Statistics.MiddleBetween | src/utils.rs:81-89 | the odd/even middle of an ascending series lies between its first and last elements |
| Statistics.MedianOfSorted | src/utils.rs:79-89 | on an ascending series the median is `values[len/2]` for odd `len`, otherwise the average of `values[len/2-1]` and `values[len/2]` |
| Statistics.MedianBounds | src/utils.rs:79-89 | the median of a non-empty series lies between its least and greatest value |
| Statistics.MedianPermutation | src/utils.rs:79-89 | the median depends only on the values of the series, not their order |
| Statistics.ColumnMedianRowOrder | src/utils.rs:64-89 | reordering the rows leaves the median of every column unchanged |
| Statistics.ColumnMedian | src/utils.rs:64-90 | `None` exactly when no cell parses. Otherwise the middle of the sorted series, between its least and greatest value |
| WorkedCases.MixedColumn | src/utils.rs:6-62 | cells `1.5, abc, "", 2.5` give NA count 2, series `[1.5, 2.5]` and mean 2.0 |
| WorkedCases.OneTwoThree | src/utils.rs:14-89 | cells `1, 2, 3` give mean 2.0, variance 1.0 (so std 1.0) and median 2.0 |
| WorkedCases.OneToFourSeries | src/utils.rs:66-73 | cells `1, 2, 3, 4` give the series `[1.0, 2.0, 3.0, 4.0]` |
| WorkedCases.MedianOfFour | src/utils.rs:81-86 | four ascending values have as median the average of the second and third |
| WorkedCases.EvenMedian | src/utils.rs:64-89 | cells `1, 2, 3, 4` have median 2.5 |
| WorkedCases.ShortRowIsNotNa | src/utils.rs:2-12 | a row too short for the column counts in `column_rows` and is neither NA nor a value |
| WorkedCases.NothingParses | src/utils.rs:24-77 | when nothing parses, mean and variance are 0.0 and the median is absent |

## Left out

- Statistics.ColumnVariance: `column_std` returns the square root of the variance (src/utils.rs:39). The model stops at the variance, because square roots of reals are not defined here. The non-negativity it proves is what makes the square root defined.
- Floating-point arithmetic: sums, divisions and squares are exact reals. Rounding, overflow and the order of summation in the `f64` arithmetic are not modelled.
- The float parser `str::parse::<f64>`: it is the parameter `parse`, so the exact literal grammar it accepts is not modelled.
- NaN and infinities: reals cannot hold NaN or ±∞, so no cell parses to either in the model.
- Rust's parser accepts `"NaN"`. A series with a NaN and at least one other value makes `partial_cmp(...).unwrap()` at src/utils.rs:79 panic. A series whose only value is NaN is never compared, so `column_median` returns `Some(NaN)`. Neither behaviour is modelled.
- Rust's parser also accepts `"inf"` and `"infinity"`, and out-of-range literals such as `"1e400"`. These parse to ±∞. The sums, means and variances they cause are not modelled.
- Sorting.SortInPlace: Rust's `sort_by` is a stable sort. The model uses insertion sort. On reals, equal keys cannot be told apart and the sorted result is unique (`SortedUnique`), so the buffer it leaves is the same.
- Statistics.ColumnMean: `count` (src/utils.rs:44) has no type annotation, so Rust types it `i32`. After 2^31 − 1 parsed cells it overflows: a debug build panics, and a release build wraps: while the wrapped count is not positive (2^31 to 2^32 parsed cells) the mean comes out 0.0, and past that `sum` is divided by the count modulo 2^32. The model counts with an unbounded natural, so it does not capture this overflow.
- `values.len()` is a `usize`. The model uses unbounded naturals, so `usize` overflow is not modelled.
- src/main.rs is not part of this model. It reads the file through the `csv` crate, handles command-line arguments, truncates the preview, formats values with `{:.3}` and draws tables with `tabled`.
- src/help.rs is not part of this model. It only prints the usage text.
- The code has no quartiles or five-number summary, so none is modelled. Mean and variance keep the code's 0.0 fallback for an empty series, rather than an absent result.
