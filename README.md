# Data-cleaning engine: a verified model

This project models the engine behind the data-cleaning web app in
`data-app`. The engine has two classes, and both only read the table they
are given:

- `DataAnalyzer` profiles a table. It produces the missing-value summary
  and one information line per column, runs five fixed checks (duplicate
  rows, missing cells, z-score outliers, inconsistent text, text columns
  that look numeric or datetime), recommends cleaning steps for what it
  finds, and scores the table's quality from 0 to 100.
- `DataCleaner` offers five table-to-table transformations: remove
  duplicate rows, handle missing values by one of five named strategies,
  remove z-score outliers column by column, standardize text (strip, then
  lower-case), and convert column types.

The app runs the chosen cleaning steps in a fixed order: duplicates, missing
values, outliers, text, types.

## Layout

- `seqs.dfy` (module `Seqs`): an option type, an order-preserving filter,
  selection of the indices below a bound that pass a test, the
  subsequence relation, duplicate-freedom and element counts.
- `text.dfy` (module `Text`): Python's `str.strip`, `str.lower` and
  `str.upper`, and Python's string ordering.
- `frames.dfy` (module `Frames`): the table, stored row by row.
  - A table is an ordered list of named columns and a sequence of rows.
  - Each column has a kind: numeric, boolean, object (any value, usually
    text), datetime or other.
  - Each cell is missing, a number, a string, a timestamp or an opaque
    value.
  - A well-formed table has one cell per column in every row, each cell
    fitting its column's kind, and unique column names.
  - The parsers behind `pd.to_numeric` and `pd.to_datetime` are a
    parameter (`Parsers`), not modelled.
- `stats.dfy` (module `Stats`): the statistics pandas computes.
  - Sum, mean, sample variance (n − 1), min and max.
  - numpy's median.
  - pandas' first-ranked mode.
  - The two z-score tests: `abs(z) > t` counts a cell, `abs(z) < t` keeps a
    row. An undefined z-score is NaN and fails both. Both tests compare
    squares, so no square root is needed.
- `analyzer.dfy` (module `Analyzer`): `DataAnalyzer`.
- `cleaner.dfy` (module `Cleaner`): `DataCleaner`, and the app's cleaning
  run.

`DataAnalyzer` and `DataCleaner` keep no state besides the table they wrap.
So each is a module of functions, with methods where the source loops:

- `get_column_info`;
- the checks in `auto_detect_issues` and the method itself;
- `get_data_quality_score`;
- `remove_outliers`, `standardize_text` and `convert_types`.

Each method is proved equal to a specification function, and the lemmas
are about those functions.

Where the design documentation and the code disagree, the model follows the
code:

- **Unrecognised missing-value strategy.** The design asks for an
  invalid-argument failure. The code returns the table unchanged
  (`cleaner.py:24`).
- **Mode ties.** The design breaks ties by first occurrence. The code takes
  `df.mode().iloc[0]`, which is the smallest of the tied values in pandas'
  sort order.
- **Mode on a table without values.** `df.mode()` has no row, so `.iloc[0]`
  raises `IndexError`. This is modelled as the `ModeIndexError` outcome.
- **Score of a table with no rows or no columns.** The design defines it as
  100. On a table without columns, or without rows and without a numeric
  column, the code computes `nan`, and `min(100, nan)` is 100, so the model
  agrees. On a table without rows that has a numeric column, the outlier
  total is the Python integer 0 and `0 / len(df)` raises
  `ZeroDivisionError` (`analyzer.py:189`). This is the `ZeroDivisionError`
  outcome of `Analyzer.Score`.
- **Text columns without strings.** The `.str` accessor raises
  `AttributeError` on an object column that holds values but no string.
  Both the text check (`analyzer.py:118`) and `standardize_text`
  (`cleaner.py:43`) then raise; this is the `StrAccessorError` outcome.
  Where strings and other values mix, the text check flags the column and
  `standardize_text` turns the other values into missing cells.
- **Tables without columns.** `duplicated()` is then empty and
  `drop_duplicates()` returns the table as it is, so no duplicate is
  counted or removed.
- **Boolean columns.** pandas counts them as numeric for
  `get_column_info` and the mean and median fills, but
  `select_dtypes(include=[np.number])` leaves them out of the outlier check,
  the outlier removal and the score.

## Model

| member | source | states |
|---|---|---|
| Analyzer.PercentBounds | data-app/core/analyzer.py:11 | a percentage of a positive whole is non-negative, positive for a positive part, and at most 100 for a part no larger than the whole |
| Analyzer.ColumnMissingBound | data-app/core/analyzer.py:10 | a column's missing count never exceeds the row count |
| Analyzer.EntryOf | data-app/core/analyzer.py:10-17 | the summary line of a column names it, carries its missing count, and its percentage lies in (0, 100] |
| Analyzer.MissingEntriesMembers | data-app/core/analyzer.py:19 | the candidate lines are exactly those of the columns with a missing cell |
| Analyzer.MissingEntriesSelected | data-app/core/analyzer.py:19 | the candidate lines are the lines of the columns with a missing cell, taken in column order |
| Analyzer.InsertByPercentage | data-app/core/analyzer.py:19 | inserting into a list ordered by decreasing percentage keeps it ordered and adds exactly that line |
| Analyzer.SortByPercentage | data-app/core/analyzer.py:19 | the sort returns a permutation of its input ordered by non-increasing percentage |
| Analyzer.MissingSummary | data-app/core/analyzer.py:8-19 | the summary is ordered by non-increasing percentage, is a permutation of the lines of the columns with missing cells, and holds a line exactly when its column has a missing cell |
| Analyzer.DistinctBound | data-app/core/analyzer.py:31 | a column has no more distinct values than values |
| Analyzer.InfoOfProperties | data-app/core/analyzer.py:25-43 | Non-Null plus Null is the row count, Null is the missing count, Unique is at most Non-Null; Mean/Min/Max are '-' exactly for a column that is neither numeric nor boolean, all nan exactly for a numeric or boolean column without values, and otherwise min ≤ mean ≤ max; a boolean column has no missing cell and its statistics lie in [0, 1] |
| Analyzer.BooleanNumbers | data-app/core/analyzer.py:34-37 | a boolean column has no missing cell and its numbers are 0 or 1 |
| Analyzer.GetColumnInfo | data-app/core/analyzer.py:21-45 | the loop yields one information line per column, in column order |
| Analyzer.DuplicateCountBound | data-app/core/analyzer.py:53 | the duplicate count is at most the row count, and below it on a non-empty table, since a first occurrence is never counted |
| Analyzer.Duplicated | data-app/core/analyzer.py:53 | the duplicate count is 0 on a table without columns, and otherwise counts the rows equal to an earlier row |
| Analyzer.DuplicateIssue | data-app/core/analyzer.py:53-62 | an issue exists exactly when the table has columns and a row repeats an earlier one; it counts the repeats, points to remove_duplicates, and is high exactly when they exceed 5% of the rows, else medium |
| Analyzer.NoRowsNoMissing | data-app/core/analyzer.py:66 | a table without rows has no missing cells |
| Analyzer.TotalMissingNeedsCells | data-app/core/analyzer.py:66-68 | a missing cell implies at least one row and one column, so the percentage is defined |
| Analyzer.MissingIssue | data-app/core/analyzer.py:66-79 | an issue exists exactly when some cell is missing; it counts them, points to handle_missing, and is high above 10%, medium above 5% up to 10%, and low otherwise |
| Analyzer.Sample | data-app/core/analyzer.py:115 | a sample holds at most 100 values |
| Analyzer.FindOutlierColumns | data-app/core/analyzer.py:89-96 | the loop builds the outlier list of the specification function |
| Analyzer.FindTextColumns | data-app/core/analyzer.py:112-123 | the loop raises AttributeError exactly when the `.str` accessor refuses the sample of some text column, and otherwise builds the flagged list of the specification function |
| Analyzer.FindTypeColumns | data-app/core/analyzer.py:138-153 | the loop builds the type-suggestion list of the specification function |
| Analyzer.IsInconsistentText | data-app/core/analyzer.py:115-122 | one column's text check raises exactly when its first 100 values hold values but no string, and otherwise flags it exactly when it is a text column whose sample holds a non-string value, a padded string or a mixed-case one |
| Analyzer.SuggestType | data-app/core/analyzer.py:140-153 | one column's type check suggests numeric, datetime or nothing exactly as the specification function does |
| Analyzer.CheckDuplicates | data-app/core/analyzer.py:53-63 | the duplicate check yields the duplicate issue |
| Analyzer.CheckMissing | data-app/core/analyzer.py:66-86 | the missing-value check yields the missing issue |
| Analyzer.CheckOutliers | data-app/core/analyzer.py:89-109 | the outlier check yields the outlier issue |
| Analyzer.CheckText | data-app/core/analyzer.py:112-135 | the text check raises exactly when its loop does, and otherwise yields the text issue |
| Analyzer.CheckTypes | data-app/core/analyzer.py:138-165 | the wrong-types check yields the type issue |
| Analyzer.Record | data-app/core/analyzer.py:55-63 | recording appends the issue, if any, and sets its step's recommendation only then |
| Analyzer.DetectIssues | data-app/core/analyzer.py:47-167 | auto_detect_issues raises AttributeError exactly when the text check does, and otherwise returns the issue list and the recommendations of the five checks in order |
| Analyzer.OutlierColumnsMembers | data-app/core/analyzer.py:89-96 | the outlier details list a column exactly when it is numeric, has a value, and has a positive count of cells with z > 3 |
| Analyzer.FoundColumnsListed | data-app/core/analyzer.py:89-96 | every column with a finding is listed with it, under its own name |
| Analyzer.ListedColumnsFound | data-app/core/analyzer.py:89-96 | every listed entry is the finding of one of the columns, under its name |
| Analyzer.TextColumnsMembers | data-app/core/analyzer.py:112-123 | a column is flagged exactly when it is a text column whose first 100 values the `.str` accessor takes and which hold a non-string value, a padded string, or both a string that is not lower-case and one that is not upper-case |
| Analyzer.TextColumnsSelected | data-app/core/analyzer.py:112-123 | the flagged list is the names of the flagged columns, taken in column order |
| Analyzer.TextStep | data-app/core/analyzer.py:114-123 | one more column makes the loop raise exactly when its sample is refused, and extends the flagged list by that column exactly when it is flagged |
| Analyzer.TypeColumnsMembers | data-app/core/analyzer.py:138-153 | a column appears among the type suggestions, with its suggestion, exactly when it is an object column with a value whose first 100 values all read as numbers (numeric), or else all read as dates (datetime) |
| Analyzer.ListedOnePerColumn | data-app/core/analyzer.py:139-153 | with distinct column names, every listed entry names one of the columns and no column is listed twice |
| Analyzer.TypeColumnsOnePerColumn | data-app/core/analyzer.py:138-153 | every type suggestion names one of the columns and no column is named twice, so none is suggested as both numeric and datetime |
| Analyzer.FindingsConsistent | data-app/core/analyzer.py:47-165 | each check's issue has that check's kind and step |
| Analyzer.IssueListMembers | data-app/core/analyzer.py:47-165 | the issue list holds exactly the issues the five checks found |
| Analyzer.IssueListActions | data-app/core/analyzer.py:47-165 | the issues point to exactly the steps of the checks that found something |
| Analyzer.IssueListOrdered | data-app/core/analyzer.py:47-165 | issues come in check order, at most one per kind, each pointing to its kind's step |
| Analyzer.AdviceFollowsIssueList | data-app/core/analyzer.py:63-165 | a step is recommended exactly when an issue of its kind is reported; missing_strategy is present exactly with handle_missing |
| Analyzer.IssuesInCheckOrder | data-app/core/analyzer.py:47-167 | auto_detect_issues lists its issues in check order, each pointing to its kind's step |
| Analyzer.RecommendationsFollowIssues | data-app/core/analyzer.py:63-86 | recommendations hold exactly the steps of the reported issues, with the suggested strategy 'Fill with median' when a numeric column exists and 'Drop rows' otherwise |
| Analyzer.NoRowsNoOutliers | data-app/core/analyzer.py:92 | a table without rows has no outlier column |
| Analyzer.NoRowsNoText | data-app/core/analyzer.py:116 | a table without rows has no flagged text column, and its text check does not raise |
| Analyzer.NoRowsNoTypes | data-app/core/analyzer.py:143 | a table without rows has no type suggestion |
| Analyzer.EmptyTableHasNoIssues | data-app/core/analyzer.py:47-167 | on a table without rows the text check does not raise, and there is no issue and no recommendation |
| Analyzer.QualityScore | data-app/core/analyzer.py:169-192 | the step-by-step score equals the specification score, including the ZeroDivisionError of a table without rows that has a numeric column |
| Analyzer.PositiveProduct | data-app/core/analyzer.py:174 | rows × columns is positive on a table with both |
| Analyzer.ScoreBounds | data-app/core/analyzer.py:171-192 | the score raises ZeroDivisionError exactly on a table without rows that has a numeric column; any other score lies in [35, 100], since the three deductions are capped at 30, 20 and 15, and on a table with rows and columns it is the unclamped score |
| Analyzer.PerfectScore | data-app/core/analyzer.py:171-192 | on a table with rows and columns, the score is 100 exactly when no cell is missing, no row is duplicated and no numeric cell has z > 3 |
| Analyzer.NoNumericNoOutliers | data-app/core/analyzer.py:182-183 | without numeric columns the outlier count is 0 |
| Analyzer.OutlierTotalMatchesIssue | data-app/core/analyzer.py:184-188 | the score's outlier count is the sum of the counts the outlier check reports |
| Analyzer.ListedSum | data-app/core/analyzer.py:99 | the counts of the listed findings add up to the sum of all the findings |
| Analyzer.OutlierTotalFound | data-app/core/analyzer.py:184-188 | the score's outlier sum is the sum of the outlier check's per-column findings, a column with no outlier adding nothing |
| Cleaner.Dedup | data-app/core/cleaner.py:10 | drop_duplicates leaves no repeated row and keeps every distinct row |
| Cleaner.FirstIndex | data-app/core/cleaner.py:10 | the first occurrence of a row is at that index and not before it |
| Cleaner.DedupIsSubseq | data-app/core/cleaner.py:10 | deduplication keeps an order-preserving subsequence of the rows |
| Cleaner.FirstIndexOfPrefix | data-app/core/cleaner.py:10 | appending rows does not move a first occurrence |
| Cleaner.OrderInExtension | data-app/core/cleaner.py:10 | appending a row keeps the first-occurrence order, and a new row comes last |
| Cleaner.DedupFirstOccurrenceOrder | data-app/core/cleaner.py:10 | the kept rows are in the order of their first occurrences |
| Cleaner.DedupAndDuplicateCount | data-app/core/cleaner.py:10 | the kept rows plus the analyzer's duplicate count make up all the rows |
| Cleaner.DedupOfDistinct | data-app/core/cleaner.py:10 | rows without repeats are kept as they are |
| Cleaner.RemoveDuplicatesProperties | data-app/core/cleaner.py:8-10 | remove_duplicates keeps the columns and every distinct row as an order-preserving subsequence; a table with columns then repeats no row and keeps first occurrences in order, a table without columns is returned as it is; it removes exactly the duplicates the analyzer counts, is idempotent, and keeps the table well formed |
| Cleaner.FillRow | data-app/core/cleaner.py:17 | fillna on a row keeps its present cells and puts the column's fill value in its missing cells |
| Cleaner.FillRows | data-app/core/cleaner.py:17 | fillna keeps the row count and fills every row |
| Cleaner.MeanFills | data-app/core/cleaner.py:17 | there is one mean fill value per column |
| Cleaner.MedianFills | data-app/core/cleaner.py:19 | there is one median fill value per column |
| Cleaner.ModeFills | data-app/core/cleaner.py:21 | there is one mode fill value per column |
| Cleaner.ForwardFilled | data-app/core/cleaner.py:23 | forward filling keeps the row count and the row width |
| Cleaner.HandleMissing | data-app/core/cleaner.py:12-24 | handle_missing fails with IndexError exactly for "Fill with mode" on a table without a value, never raises anything else, keeps the columns, and keeps the row count for every strategy but "Drop rows" |
| Cleaner.FillRowsShaped | data-app/core/cleaner.py:16-21 | filling keeps the table well formed when each fill value fits its column or the column cannot hold a missing cell |
| Cleaner.MeanFillValue | data-app/core/cleaner.py:17 | the mean fill is missing exactly for a column that is neither numeric nor boolean or has no number, otherwise lies between the column's min and max, and fits every column that can hold a missing cell |
| Cleaner.MedianFillValue | data-app/core/cleaner.py:19 | the median fill is missing exactly for a column that is neither numeric nor boolean or has no number, otherwise lies between the column's min and max, and fits every column that can hold a missing cell |
| Cleaner.ModeFillValue | data-app/core/cleaner.py:21 | the mode fill is missing exactly for a column without values; otherwise it is a value of the column that fits it, no value is more frequent, and it sorts first among the equally frequent |
| Cleaner.FillStrategyProperties | data-app/core/cleaner.py:16-21 | the three fill strategies keep every row and every present cell, put the column's fill value in each missing cell, and keep the table well formed |
| Cleaner.DropRowsProperties | data-app/core/cleaner.py:14-15 | "Drop rows" keeps, in order, exactly the rows without a missing cell, each as many times as it occurs, so no cell of the result is missing |
| Cleaner.ForwardFillNearest | data-app/core/cleaner.py:22-23 | after forward filling a cell holds the nearest value at or above it in its column, and stays missing exactly when there is none |
| Cleaner.HandleMissingWellFormed | data-app/core/cleaner.py:12-24 | every strategy yields a well-formed table, and an unrecognised strategy returns the input unchanged |
| Cleaner.KeepWithin | data-app/core/cleaner.py:32-33 | a pass keeps exactly the rows whose z-score, against the rows still present, is defined and below the threshold, each as many times as it occurs |
| Cleaner.OutliersRemoved | data-app/core/cleaner.py:28-35 | the passes only ever keep rows of the input |
| Cleaner.RemoveOutliers | data-app/core/cleaner.py:26-35 | the loop over the numeric columns computes the cumulative passes |
| Cleaner.KeepWithinIsSubseq | data-app/core/cleaner.py:33 | a pass keeps an order-preserving subsequence |
| Cleaner.RemoveOutliersProperties | data-app/core/cleaner.py:26-35 | remove_outliers keeps an order-preserving subsequence of the rows and a well-formed table; every kept row has a number in each numeric column, so a missing numeric cell removes its row; without numeric columns nothing is removed |
| Cleaner.OutliersRemovedIsSubseq | data-app/core/cleaner.py:28-35 | the cumulative passes keep an order-preserving subsequence of the rows |
| Cleaner.OutliersRemovedNumeric | data-app/core/cleaner.py:28-35 | after the passes over the first n columns, every kept row holds a number in each of those numeric columns |
| Cleaner.OutliersRemovedNoNumeric | data-app/core/cleaner.py:28-35 | passes over columns none of which is numeric keep every row |
| Cleaner.KeepWithinUndefined | data-app/core/cleaner.py:32-33 | a pass over a constant column, one with fewer than two numbers, or a non-positive threshold keeps no row |
| Cleaner.OutliersRemovedStaysEmpty | data-app/core/cleaner.py:31-33 | once no row is left, later passes keep none |
| Cleaner.FirstNumericUndefinedEmpties | data-app/core/cleaner.py:28-35 | when the first numeric column is constant or has fewer than two numbers, remove_outliers removes every row |
| Cleaner.KeptRowsAreNotOutliers | data-app/core/cleaner.py:32-33 | no row a pass keeps is one the analyzer would count as an outlier at the same threshold against the same statistics |
| Cleaner.StandardizeCell | data-app/core/cleaner.py:43 | a string becomes a string that strip and lower leave alone; any other cell becomes missing |
| Cleaner.StandardizedUpTo | data-app/core/cleaner.py:42-43 | standardizing keeps the row width |
| Cleaner.StandardizedNext | data-app/core/cleaner.py:42-43 | standardizing one more column updates exactly that cell |
| Cleaner.StandardizeStep | data-app/core/cleaner.py:42-43 | one pass over column j extends the standardized prefix of every row by that column |
| Cleaner.StandardizedColumnUntouched | data-app/core/cleaner.py:42-43 | the column a pass reads is still the input column |
| Cleaner.StandardizedAll | data-app/core/cleaner.py:42-45 | after the last pass the rows are those of the standardized table and no object column was refused |
| Cleaner.StandardizeText | data-app/core/cleaner.py:37-45 | the loop raises AttributeError exactly when some object column has values but no string, and otherwise yields the standardized table |
| Cleaner.StandardizeTextProperties | data-app/core/cleaner.py:37-45 | standardize_text keeps the columns and rows, replaces each string of an object column with its stripped, lower-cased form and each other value there with a missing cell, leaves the other columns alone, and keeps the table well formed |
| Cleaner.StandardizeCellIdempotent | data-app/core/cleaner.py:43 | standardizing a cell twice equals standardizing it once |
| Cleaner.StandardizeTextIdempotent | data-app/core/cleaner.py:37-45 | standardize_text twice equals standardize_text once |
| Cleaner.SampleMembers | data-app/core/analyzer.py:115 | a sample holds cells of its column |
| Cleaner.StandardizedColumnStrings | data-app/core/cleaner.py:43 | every string of a standardized text column is its own stripped and lower-cased form |
| Cleaner.StandardizedColumnNotFlagged | data-app/core/analyzer.py:114-123 | the text check neither raises on nor flags any column of a standardized table |
| Cleaner.StandardizedSampleNotFlagged | data-app/core/analyzer.py:115-122 | a sample of stripped, lower-case strings is taken by the `.str` accessor and is neither padded nor of mixed case |
| Cleaner.StandardizedTextNotFlagged | data-app/core/cleaner.py:37-45 | after standardize_text the analyzer's text check does not raise, flags no column and reports no text issue |
| Cleaner.NoFlagsNoTextColumns | data-app/core/analyzer.py:114-125 | without a flagged column the text check lists none |
| Cleaner.ConvertedUpTo | data-app/core/cleaner.py:51-60 | conversion keeps the row width |
| Cleaner.ConvertedNext | data-app/core/cleaner.py:51-60 | converting one more column updates exactly that cell |
| Cleaner.ConvertTypes | data-app/core/cleaner.py:47-62 | the loop over all the columns yields the converted table |
| Cleaner.ConvertColumnStep | data-app/core/cleaner.py:51-60 | converting one more column reads that column's original cells and extends the converted prefix by one column |
| Cleaner.ConvertCellFits | data-app/core/cleaner.py:53-60 | a converted cell fits its column's new type |
| Cleaner.ConvertTypesProperties | data-app/core/cleaner.py:47-62 | convert_types keeps the rows and the column names, never changes a numeric column, converts each column wholly (a column that keeps its type keeps every cell), and keeps the table well formed |
| Cleaner.ConvertedWellFormed | data-app/core/cleaner.py:47-62 | convert_types yields a well-formed table: every row as wide as the columns and each cell fitting its column's new type |
| Cleaner.ConvertTextColumn | data-app/core/cleaner.py:53-60 | a text column becomes numeric exactly when all its values parse as numbers, else datetime exactly when all parse as dates, else stays text; each present value becomes its parsed value and missing cells stay missing |
| Cleaner.ConvertDatetimeColumn | data-app/core/cleaner.py:54 | to_numeric reads a datetime column as integer nanoseconds, with each missing timestamp becoming pandas' NaT integer |
| Cleaner.ConvertTwice | data-app/core/cleaner.py:47-62 | a second conversion changes only the datetime columns, which become numeric, so convert_types is idempotent exactly on results without a datetime column |
| Cleaner.ConversionIsSuggested | data-app/core/analyzer.py:138-153 | when convert_types makes a text column numeric, the analyzer suggests numeric for it; when it makes it datetime, the analyzer suggests a conversion |
| Cleaner.Clean | data-app/app.py:484-507 | the step-by-step cleaning run equals the composition of the chosen steps, in the order duplicates, missing values, outliers, text, types, stopping at the first step that raises |
| Cleaner.CleanSpecProperties | data-app/app.py:487-507 | the run fails with IndexError exactly for "Fill with mode" on a (deduplicated) table without a value, raises AttributeError only when text is standardized, and otherwise keeps the column names in order, never adds rows and yields a well-formed table |
| Cleaner.FinishSpecProperties | data-app/app.py:497-507 | outliers, text and types never raise IndexError, raise AttributeError only when text is standardized, and otherwise keep the column names, never add rows and keep the table well formed |
| Stats.Min | data-app/core/analyzer.py:36 | the minimum is a value of the column and no value is smaller |
| Stats.Max | data-app/core/analyzer.py:37 | the maximum is a value of the column and no value is larger |
| Stats.ZDefinedIffVaried | data-app/core/analyzer.py:93 | a z-score is defined exactly when the column has two different numbers |
| Stats.ZAboveExcludesBelow | data-app/core/cleaner.py:32-33 | no cell is both beyond and below a non-negative threshold |
| Stats.SumSquaresNonNegative | data-app/core/analyzer.py:93 | a sum of squared deviations is non-negative |
| Stats.SumSquaresPositive | data-app/core/analyzer.py:93 | a sum of squared deviations is positive when some value differs from the centre |
| Stats.SumSquaresConstant | data-app/core/analyzer.py:93 | the squared deviations of a constant column sum to 0 |
| Stats.SumConstant | data-app/core/analyzer.py:93 | a constant column sums to its length times its value |
| Stats.SumBounds | data-app/core/analyzer.py:35 | a sum lies between length × lower bound and length × upper bound |
| Stats.MeanBetween | data-app/core/analyzer.py:35 | a mean lies within any bounds of its values |
| Stats.MeanWithin | data-app/core/cleaner.py:17 | a mean lies between the minimum and the maximum |
| Stats.Insert | data-app/core/cleaner.py:19 | inserting into a sorted list keeps it sorted and adds exactly that value |
| Stats.SortAscending | data-app/core/cleaner.py:19 | sorting returns a sorted permutation |
| Stats.MedianWithin | data-app/core/cleaner.py:19 | a median lies between the minimum and the maximum |
| Stats.PermutationWithin | data-app/core/cleaner.py:19 | a reordering of the values stays between their minimum and maximum |
| Stats.MiddleWithin | data-app/core/cleaner.py:19 | the middle value, or the average of the two middle values, lies within any bounds of the values |
| Stats.CellLessIrreflexive | data-app/core/cleaner.py:21 | pandas' value order is irreflexive |
| Stats.CellLessTransitive | data-app/core/cleaner.py:21 | pandas' value order is transitive |
| Stats.BestOf | data-app/core/cleaner.py:21 | the best candidate among the first k values is one of them and none ranks before it |
| Stats.Mode | data-app/core/cleaner.py:21 | the mode is a value of the column, none is more frequent, and it sorts first among the equally frequent |
| Frames.StrategyNamed | data-app/core/cleaner.py:14-24 | a name that is none of the five strategies is kept as unrecognised |
| Frames.ColumnCells | data-app/core/analyzer.py:29 | a column holds the row's cell for every row |
| Frames.MissingPlusPresent | data-app/core/analyzer.py:29-30 | Non-Null plus Null is the column length |
| Frames.NumbersOfNumericColumn | data-app/core/analyzer.py:35 | in a numeric column the numbers are exactly the present cells |
| Frames.StringsOfObjectColumn | data-app/core/analyzer.py:115 | the strings of a column are among its present cells, and are all of them exactly when every present cell is a string |
| Frames.StringsMembers | data-app/core/analyzer.py:115 | every string of a column comes from one of its cells |
| Frames.ColumnCellsFit | data-app/core/analyzer.py:28 | every cell of a column fits its type |
| Text.TrimStart | data-app/core/cleaner.py:43 | stripping the start removes exactly a run of leading whitespace |
| Text.TrimEnd | data-app/core/cleaner.py:43 | stripping the end removes exactly a run of trailing whitespace |
| Text.Trim | data-app/core/analyzer.py:118 | a stripped string neither starts nor ends with whitespace |
| Text.TrimIdempotent | data-app/core/cleaner.py:43 | stripping twice equals stripping once |
| Text.TrimLower | data-app/core/cleaner.py:43 | stripping and lower-casing commute |
| Text.StandardizeFixed | data-app/core/cleaner.py:43 | a standardized string is already stripped and lower-case, so standardizing again changes nothing |
| Text.StrLessIrreflexive | data-app/core/analyzer.py:19 | Python's string order is irreflexive |
| Text.StrLessTransitive | data-app/core/cleaner.py:21 | Python's string order is transitive |
| Text.StrLessTotal | data-app/core/cleaner.py:21 | Python's string order is total |
| Seqs.Filter | data-app/core/cleaner.py:15 | a filter keeps exactly the elements that satisfy the predicate, each as many times as it occurs |
| Seqs.FilterIsSubseq | data-app/core/cleaner.py:15 | a filter keeps an order-preserving subsequence |
| Seqs.FilterNone | data-app/core/cleaner.py:33 | a filter that no element passes leaves nothing |
| Seqs.SubseqTrans | data-app/core/cleaner.py:31-33 | a subsequence of a subsequence is a subsequence |
| Seqs.SubseqMembers | data-app/core/cleaner.py:33 | the elements of a subsequence are elements of the whole |

## Left out

- The Streamlit interface, file upload and export, charts, and the
  formatting of messages and numbers (the `"%.2f"` Mean/Min/Max strings and
  the f-string messages). This is presentation and I/O.
- `pd.to_numeric` and `pd.to_datetime` parsing rules. They are pandas
  internals and appear as the `Parsers` parameter.
- Floating point. Statistics are exact reals, so IEEE rounding (including
  values that land exactly on the 5% and 10% thresholds) is not modelled.
  NaN appears only where it decides a count, a keep/drop or a score.
- Non-ASCII case mapping. `Lower` and `Upper` map only ASCII letters;
  Python maps all Unicode letters.
- Tie order in the missing summary. pandas' sort does not promise an order
  for equal percentages; the model uses a stable insertion sort.
- pandas' ordering of mixed-type values in `df.mode()`. The model orders
  values by kind first.
- Analyzer.IsInconsistentText, Cleaner.StandardizeText: pandas' `.str`
  accessor also takes some object columns without a string (bytes values,
  or a mix pandas infers as "mixed"); the model raises on every object
  column that has values and no string.
- Booleans stored in an object column are `Num` cells 0 and 1, so they are
  not told apart from the numbers 0 and 1.
- Analyzer.Score: on a table without rows the missing and duplicate
  percentages are taken as `nan` (numpy integer 0/0), not as an exception.
- Analyzer.OutlierIssue, Analyzer.TextIssue, Analyzer.TypeIssue: these
  carry no contract of their own. Their content is stated by the
  membership lemmas and by `IssuesInCheckOrder` and
  `RecommendationsFollowIssues`.
- Cleaner.ConvertTypes: columns of other dtypes (booleans, categories,
  ...) are kept as they are. pandas would convert a category column whose
  values all parse.
- Cleaner.Clean: the app's before/after row count and its operation log
  are not modelled. The threshold is the default 3.
