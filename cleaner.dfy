/** `DataCleaner`: five transformations of a table, each returning a new
    table and leaving its input alone. */
module Cleaner {
  import opened Seqs
  import opened Text
  import opened Frames
  import opened Stats
  import Analyzer

  // ---------------------------------------------------- remove_duplicates

  /** `drop_duplicates()` on the rows: each distinct row at its first
      occurrence, in order. */
  function Dedup(rows: seq<Row>): (r: seq<Row>)
    ensures NoDuplicates(r)
    ensures forall x :: x in r <==> x in rows
  {
    if rows == [] then []
    else
      var init := Dedup(rows[..|rows| - 1]);
      var last := rows[|rows| - 1];
      assert rows == rows[..|rows| - 1] + [last];
      if last in rows[..|rows| - 1] then init else init + [last]
  }

  /** `remove_duplicates`: `drop_duplicates` gives a table without columns
      back as it is. */
  function RemoveDuplicates(t: Table): Table
  {
    if |t.columns| == 0 then t else Table(t.columns, Dedup(t.rows))
  }

  /** The index of the first occurrence of `x` in `s`. */
  function FirstIndex<T(==)>(s: seq<T>, x: T): (i: nat)
    requires x in s
    ensures i < |s| && s[i] == x && x !in s[..i]
  {
    if s[0] == x then 0
    else
      assert s == [s[0]] + s[1..];
      var k := FirstIndex(s[1..], x);
      assert s[..k + 1] == [s[0]] + s[1..][..k];
      k + 1
  }

  lemma {:induction false} DedupIsSubseq(rows: seq<Row>)
    ensures IsSubseq(Dedup(rows), rows)
    decreases |rows|
  {
    if rows != [] {
      var init := rows[..|rows| - 1];
      DedupIsSubseq(init);
      if rows[|rows| - 1] in init {
        SubseqDropLast(Dedup(init), rows);
      } else {
        var r := Dedup(init) + [rows[|rows| - 1]];
        assert r[..|r| - 1] == Dedup(init);
      }
    }
  }

  lemma FirstIndexOfPrefix<T>(s: seq<T>, n: nat, x: T)
    requires n <= |s| && x in s[..n]
    ensures x in s && FirstIndex(s[..n], x) == FirstIndex(s, x)
  {
    var i := FirstIndex(s[..n], x);
    assert s[i] == x;
    var k := FirstIndex(s, x);
    assert s[..n][..i] == s[..i];
    assert forall j :: 0 <= j < i ==> s[j] != x by {
      forall j | 0 <= j < i ensures s[j] != x { assert s[j] == s[..i][j]; }
    }
    assert forall j :: 0 <= j < k ==> s[j] != x by {
      forall j | 0 <= j < k ensures s[j] != x { assert s[j] == s[..k][j]; }
    }
  }

  /** Rows in first-occurrence order of `rows` */
  predicate InFirstOccurrenceOrder(r: seq<Row>, rows: seq<Row>)
    requires forall x :: x in r ==> x in rows
  {
    forall a, b :: 0 <= a < b < |r| ==> FirstIndex(rows, r[a]) < FirstIndex(rows, r[b])
  }

  /** Extending `rows` keeps the order of first occurrences in its prefix. */
  lemma OrderInExtension(d: seq<Row>, rows: seq<Row>)
    requires rows != []
    requires forall x :: x in d ==> x in rows[..|rows| - 1]
    requires InFirstOccurrenceOrder(d, rows[..|rows| - 1])
    ensures InFirstOccurrenceOrder(d, rows)
    ensures rows[|rows| - 1] !in rows[..|rows| - 1] ==> InFirstOccurrenceOrder(d + [rows[|rows| - 1]], rows)
  {
    var n := |rows| - 1;
    var init := rows[..n];
    forall x | x in d ensures x in rows && FirstIndex(rows, x) == FirstIndex(init, x) < n {
      FirstIndexOfPrefix(rows, n, x);
    }
    forall a, b | 0 <= a < b < |d| ensures FirstIndex(rows, d[a]) < FirstIndex(rows, d[b]) {
      assert d[a] in d && d[b] in d;
    }
    var last := rows[n];
    if last !in init {
      var r := d + [last];
      assert FirstIndex(rows, last) == n;
      forall a, b | 0 <= a < b < |r| ensures FirstIndex(rows, r[a]) < FirstIndex(rows, r[b]) {
        assert r[a] == d[a] && d[a] in d;
        if b < |d| {
          assert r[b] == d[b];
        }
      }
    }
  }

  /** Deduplication keeps the rows in the order of their first occurrences. */
  lemma {:induction false} DedupFirstOccurrenceOrder(rows: seq<Row>)
    ensures InFirstOccurrenceOrder(Dedup(rows), rows)
    decreases |rows|
  {
    if rows != [] {
      var init := rows[..|rows| - 1];
      DedupFirstOccurrenceOrder(init);
      OrderInExtension(Dedup(init), rows);
    }
  }

  /** The deduplicated rows plus the rows the analyzer counts as duplicates
      make up all the rows. */
  lemma {:induction false} DedupAndDuplicateCount(rows: seq<Row>)
    ensures |Dedup(rows)| + Analyzer.DuplicateCount(rows) == |rows|
    decreases |rows|
  {
    if rows != [] {
      DedupAndDuplicateCount(rows[..|rows| - 1]);
    }
  }

  /** Rows without repeats are left as they are. */
  lemma {:induction false} DedupOfDistinct(rows: seq<Row>)
    requires NoDuplicates(rows)
    ensures Dedup(rows) == rows
    decreases |rows|
  {
    if rows != [] {
      var init := rows[..|rows| - 1];
      DedupOfDistinct(init);
      forall k | 0 <= k < |init| ensures init[k] != rows[|rows| - 1] {
        assert init[k] == rows[k];
      }
    }
  }

  /** `remove_duplicates` keeps the columns and a sub-sequence of the rows
      without losing a distinct row; a table with columns loses its repeats
      and keeps the first occurrences in order, a table without columns is
      left alone. It removes exactly the rows the analyzer counts as
      duplicates, and removing duplicates twice changes nothing more. */
  lemma RemoveDuplicatesProperties(t: Table)
    ensures var r := RemoveDuplicates(t);
      r.columns == t.columns
      && (|t.columns| == 0 ==> r == t)
      && (|t.columns| > 0 ==> NoDuplicates(r.rows) && InFirstOccurrenceOrder(r.rows, t.rows))
      && (forall x :: x in r.rows <==> x in t.rows)
      && IsSubseq(r.rows, t.rows)
      && |r.rows| + Analyzer.Duplicated(t) == |t.rows|
      && RemoveDuplicates(r) == r
      && (WellFormed(t) ==> WellFormed(r))
  {
    if |t.columns| == 0 {
      SubseqRefl(t.rows);
    } else {
      DedupIsSubseq(t.rows);
      DedupFirstOccurrenceOrder(t.rows);
      DedupAndDuplicateCount(t.rows);
      DedupOfDistinct(Dedup(t.rows));
    }
  }

  // -------------------------------------------------------- handle_missing

  /** The table a cleaning step returns, or what it raises: the
      `IndexError` of `df.mode().iloc[0]` when no column has a value, or the
      `AttributeError` of the `.str` accessor on a column without strings. */
  datatype Outcome = Done(table: Table) | ModeIndexError | StrAccessorError

  /** The row has no missing cell. */
  predicate Complete(row: Row)
  {
    forall k :: 0 <= k < |row| ==> !row[k].Missing?
  }

  /** `row` with each missing cell replaced by the fill value of its column;
      a `Missing` fill value leaves the cell missing. */
  function FillRow(row: Row, fills: seq<Cell>): (r: Row)
    requires |fills| == |row|
    ensures |r| == |row|
    ensures forall k :: 0 <= k < |row| ==> r[k] == if row[k].Missing? then fills[k] else row[k]
  {
    seq(|row|, k requires 0 <= k < |row| => if row[k].Missing? then fills[k] else row[k])
  }

  /** `fillna` with one fill value per column. */
  function FillRows(rows: seq<Row>, fills: seq<Cell>): (r: seq<Row>)
    requires forall row :: row in rows ==> |row| == |fills|
    ensures |r| == |rows|
    ensures forall i :: 0 <= i < |rows| ==> r[i] == FillRow(rows[i], fills)
  {
    seq(|rows|, i requires 0 <= i < |rows| => FillRow(rows[i], fills))
  }

  /** The mean of column `j`, if it is numeric or boolean and has a value. */
  function MeanFill(t: Table, j: nat): Cell
    requires WellFormed(t) && j < |t.columns|
  {
    var xs := Numbers(ColumnCells(t.rows, j));
    if NumericDtype(t.columns[j].kind) && |xs| > 0 then Num(Mean(xs)) else Missing
  }

  /** The median of column `j`, if it is numeric or boolean and has a value. */
  function MedianFill(t: Table, j: nat): Cell
    requires WellFormed(t) && j < |t.columns|
  {
    var xs := Numbers(ColumnCells(t.rows, j));
    if NumericDtype(t.columns[j].kind) && |xs| > 0 then Num(Median(xs)) else Missing
  }

  /** The first-ranked mode of column `j`, if it has a value. */
  function ModeFill(t: Table, j: nat): Cell
    requires WellFormed(t) && j < |t.columns|
  {
    var present := NonMissing(ColumnCells(t.rows, j));
    if |present| > 0 then Mode(present) else Missing
  }

  /** `df.mean(numeric_only=True)`, one fill value per column. */
  function MeanFills(t: Table): (r: seq<Cell>)
    requires WellFormed(t)
    ensures |r| == |t.columns| && forall j :: 0 <= j < |t.columns| ==> r[j] == MeanFill(t, j)
  {
    seq(|t.columns|, j requires 0 <= j < |t.columns| && WellFormed(t) => MeanFill(t, j))
  }

  /** `df.median(numeric_only=True)`, one fill value per column. */
  function MedianFills(t: Table): (r: seq<Cell>)
    requires WellFormed(t)
    ensures |r| == |t.columns| && forall j :: 0 <= j < |t.columns| ==> r[j] == MedianFill(t, j)
  {
    seq(|t.columns|, j requires 0 <= j < |t.columns| && WellFormed(t) => MedianFill(t, j))
  }

  /** `df.mode().iloc[0]`, one fill value per column. */
  function ModeFills(t: Table): (r: seq<Cell>)
    requires WellFormed(t)
    ensures |r| == |t.columns| && forall j :: 0 <= j < |t.columns| ==> r[j] == ModeFill(t, j)
  {
    seq(|t.columns|, j requires 0 <= j < |t.columns| && WellFormed(t) => ModeFill(t, j))
  }

  /** Some column has a value, so `df.mode()` has a first row. */
  predicate HasSomeValue(t: Table)
    requires WellFormed(t)
  {
    exists j :: 0 <= j < |t.columns| && |NonMissing(ColumnCells(t.rows, j))| > 0
  }

  /** The cell `ffill` leaves in row `i` of column `j`: a present cell
      stays, a missing cell takes the filled cell above it, and the first
      row has nothing above it. */
  function FilledFromAbove(rows: seq<Row>, i: nat, j: nat): Cell
    requires i < |rows| && forall row :: row in rows ==> j < |row|
  {
    assert rows[i] in rows;
    if !rows[i][j].Missing? then rows[i][j]
    else if i == 0 then Missing
    else FilledFromAbove(rows, i - 1, j)
  }

  /** `ffill` on the rows, cell by cell. */
  function ForwardFilled(rows: seq<Row>, width: nat): (r: seq<Row>)
    requires forall row :: row in rows ==> |row| == width
    ensures |r| == |rows|
    ensures forall row :: row in r ==> |row| == width
  {
    seq(|rows|, i requires 0 <= i < |rows| =>
      seq(width, j requires 0 <= j < width => FilledFromAbove(rows, i, j)))
  }

  /** `handle_missing(df, strategy)`. */
  function HandleMissing(t: Table, strategy: MissingStrategy): (r: Outcome)
    requires WellFormed(t)
    ensures r.ModeIndexError? <==> strategy == FillMode && !HasSomeValue(t)
    ensures !r.StrAccessorError?
    ensures r.Done? ==> r.table.columns == t.columns
    ensures r.Done? && strategy != DropRows ==> |r.table.rows| == |t.rows|
  {
    match strategy
    case DropRows => Done(Table(t.columns, Filter(Complete, t.rows)))
    case FillMean => Done(Table(t.columns, FillRows(t.rows, MeanFills(t))))
    case FillMedian => Done(Table(t.columns, FillRows(t.rows, MedianFills(t))))
    case FillMode =>
      if HasSomeValue(t) then Done(Table(t.columns, FillRows(t.rows, ModeFills(t)))) else ModeIndexError
    case ForwardFill => Done(Table(t.columns, ForwardFilled(t.rows, |t.columns|)))
    case Unrecognized(_) => Done(t)
  }

  /** Filling keeps a table well formed when each fill value fits its
      column, or the column has no missing cell to fill, as a boolean column. */
  lemma FillRowsShaped(t: Table, fills: seq<Cell>)
    requires WellFormed(t) && |fills| == |t.columns|
    requires forall j :: 0 <= j < |fills| ==> Fits(t.columns[j].kind, fills[j]) || !Fits(t.columns[j].kind, Missing)
    ensures WellFormed(Table(t.columns, FillRows(t.rows, fills)))
  {
    var rows := FillRows(t.rows, fills);
    forall row | row in rows
      ensures |row| == |t.columns| && forall j :: 0 <= j < |t.columns| ==> Fits(t.columns[j].kind, row[j])
    {
      var i :| 0 <= i < |rows| && rows[i] == row;
      assert t.rows[i] in t.rows;
    }
  }

  /** The mean fill of a column is missing exactly when the column is
      neither numeric nor boolean or has no number; otherwise it lies
      between the column's smallest and largest number. It fits every
      column that can hold a missing cell. */
  lemma MeanFillValue(t: Table, j: nat)
    requires WellFormed(t) && j < |t.columns|
    ensures var xs := Numbers(ColumnCells(t.rows, j));
      (MeanFill(t, j).Missing? <==> !NumericDtype(t.columns[j].kind) || |xs| == 0)
      && (MeanFill(t, j).Num? ==> Min(xs) <= MeanFill(t, j).x <= Max(xs))
    ensures Fits(t.columns[j].kind, Missing) ==> Fits(t.columns[j].kind, MeanFill(t, j))
  {
    var xs := Numbers(ColumnCells(t.rows, j));
    if |xs| > 0 {
      MeanWithin(xs);
    }
  }

  /** The median fill of a column is missing exactly when the column is
      neither numeric nor boolean or has no number; otherwise it lies
      between the column's smallest and largest number. It fits every
      column that can hold a missing cell. */
  lemma MedianFillValue(t: Table, j: nat)
    requires WellFormed(t) && j < |t.columns|
    ensures var xs := Numbers(ColumnCells(t.rows, j));
      (MedianFill(t, j).Missing? <==> !NumericDtype(t.columns[j].kind) || |xs| == 0)
      && (MedianFill(t, j).Num? ==> Min(xs) <= MedianFill(t, j).x <= Max(xs))
    ensures Fits(t.columns[j].kind, Missing) ==> Fits(t.columns[j].kind, MedianFill(t, j))
  {
    var xs := Numbers(ColumnCells(t.rows, j));
    if |xs| > 0 {
      MedianWithin(xs);
    }
  }

  /** The mode fill of a column is missing exactly when the column has no
      value; otherwise it is one of the column's values, no value occurs more
      often, and among the values that occur as often it sorts first. */
  lemma ModeFillValue(t: Table, j: nat)
    requires WellFormed(t) && j < |t.columns|
    ensures var present := NonMissing(ColumnCells(t.rows, j));
      var m := ModeFill(t, j);
      (m.Missing? <==> |present| == 0)
      && (!m.Missing? ==> m in ColumnCells(t.rows, j))
      && (!m.Missing? ==> forall x :: x in present ==>
            Count(present, x) < Count(present, m) || (Count(present, x) == Count(present, m) && !CellLess(x, m)))
    ensures !ModeFill(t, j).Missing? ==> Fits(t.columns[j].kind, ModeFill(t, j))
  {
    ColumnCellsFit(t, j);
  }

  /** The value "Fill with mean", "Fill with median" or "Fill with mode" puts
      into the missing cells of column `j`. */
  function FillValue(t: Table, strategy: MissingStrategy, j: nat): Cell
    requires WellFormed(t) && j < |t.columns|
    requires strategy.FillMean? || strategy.FillMedian? || strategy.FillMode?
  {
    if strategy.FillMean? then MeanFill(t, j)
    else if strategy.FillMedian? then MedianFill(t, j)
    else ModeFill(t, j)
  }

  /** The three fill strategies keep every row and every present cell; a
      missing cell takes its column's fill value, and the table stays well
      formed. */
  lemma FillStrategyProperties(t: Table, strategy: MissingStrategy)
    requires WellFormed(t)
    requires strategy.FillMean? || strategy.FillMedian? || (strategy.FillMode? && HasSomeValue(t))
    ensures HandleMissing(t, strategy).Done?
    ensures var r := HandleMissing(t, strategy).table;
      WellFormed(r) && |r.rows| == |t.rows|
      && forall i, j :: 0 <= i < |t.rows| && 0 <= j < |t.columns| ==>
           r.rows[i][j] == if t.rows[i][j].Missing? then FillValue(t, strategy, j) else t.rows[i][j]
  {
    var fills := seq(|t.columns|, j requires 0 <= j < |t.columns| => FillValue(t, strategy, j));
    forall j | 0 <= j < |t.columns|
      ensures Fits(t.columns[j].kind, fills[j]) || !Fits(t.columns[j].kind, Missing)
    {
      MeanFillValue(t, j);
      MedianFillValue(t, j);
      ModeFillValue(t, j);
    }
    if strategy.FillMean? {
      assert fills == MeanFills(t);
    } else if strategy.FillMedian? {
      assert fills == MedianFills(t);
    } else {
      assert fills == ModeFills(t);
    }
    FillRowsShaped(t, fills);
  }

  /** "Drop rows" keeps, in order, exactly the rows without a missing cell,
      each as many times as it occurs. */
  lemma DropRowsProperties(t: Table)
    requires WellFormed(t)
    ensures var r := HandleMissing(t, DropRows).table;
      WellFormed(r)
      && IsSubseq(r.rows, t.rows)
      && (forall row :: row in r.rows <==> row in t.rows && Complete(row))
      && (forall row :: Count(r.rows, row) == if Complete(row) then Count(t.rows, row) else 0)
      && forall i, j :: 0 <= i < |r.rows| && 0 <= j < |r.columns| ==> !r.rows[i][j].Missing?
  {
    var rows: seq<Row> := Filter(Complete, t.rows);
    FilterIsSubseq(Complete, t.rows);
    forall i, j | 0 <= i < |rows| && 0 <= j < |t.columns| ensures !rows[i][j].Missing? {
      assert rows[i] in rows;
    }
  }

  /** Column `j` has no value in rows `lo+1` to `hi`. */
  predicate MissingBetween(rows: seq<Row>, lo: int, hi: nat, j: nat)
    requires hi < |rows| && forall row :: row in rows ==> j < |row|
  {
    forall m :: lo < m <= hi ==> m >= 0 && rows[m][j].Missing?
  }

  /** "Forward fill" puts into each cell the nearest value at or above it in
      its column; a cell stays missing exactly when its column has no value
      at or above it. */
  lemma {:induction false} ForwardFillNearest(rows: seq<Row>, width: nat, i: nat, j: nat)
    requires forall row :: row in rows ==> |row| == width
    requires i < |rows| && j < width
    ensures ForwardFilled(rows, width)[i][j].Missing? <==> MissingBetween(rows, -1, i, j)
    ensures !ForwardFilled(rows, width)[i][j].Missing? ==>
      exists k :: 0 <= k <= i && rows[k][j] == ForwardFilled(rows, width)[i][j] && MissingBetween(rows, k, i, j)
    decreases i
  {
    var c := ForwardFilled(rows, width)[i][j];
    assert c == FilledFromAbove(rows, i, j);
    if !rows[i][j].Missing? {
      assert rows[i][j] == c && MissingBetween(rows, i, i, j);
      assert !MissingBetween(rows, -1, i, j);
    } else if i > 0 {
      ForwardFillNearest(rows, width, i - 1, j);
      assert c == ForwardFilled(rows, width)[i - 1][j];
      if !c.Missing? {
        var k :| 0 <= k <= i - 1 && rows[k][j] == c && MissingBetween(rows, k, i - 1, j);
        assert MissingBetween(rows, k, i, j);
      } else {
        assert MissingBetween(rows, -1, i, j);
      }
    }
  }

  /** Every strategy other than "Fill with mode" on a table without values
      gives a well-formed table with the input's columns; an unrecognised
      name gives the input back. */
  lemma HandleMissingWellFormed(t: Table, strategy: MissingStrategy)
    requires WellFormed(t)
    ensures HandleMissing(t, strategy).Done? ==> WellFormed(HandleMissing(t, strategy).table)
    ensures strategy.Unrecognized? ==> HandleMissing(t, strategy) == Done(t)
  {
    match strategy
    case DropRows => DropRowsProperties(t);
    case FillMean => FillStrategyProperties(t, strategy);
    case FillMedian => FillStrategyProperties(t, strategy);
    case FillMode =>
      if HasSomeValue(t) {
        FillStrategyProperties(t, strategy);
      }
    case ForwardFill =>
      var rows: seq<Row> := ForwardFilled(t.rows, |t.columns|);
      forall row: Row | row in rows
        ensures |row| == |t.columns| && forall j :: 0 <= j < |t.columns| ==> Fits(t.columns[j].kind, row[j])
      {
        var i :| 0 <= i < |rows| && rows[i] == row;
        forall j | 0 <= j < |t.columns| ensures Fits(t.columns[j].kind, row[j]) {
          ForwardFillNearest(t.rows, |t.columns|, i, j);
          if !row[j].Missing? {
            var k :| 0 <= k <= i && t.rows[k][j] == row[j] && MissingBetween(t.rows, k, i, j);
            assert t.rows[k] in t.rows;
          } else {
            assert t.rows[i][j].Missing? && t.rows[i] in t.rows;
          }
        }
      }
    case Unrecognized(_) =>
  }

  // ------------------------------------------------------- remove_outliers

  /** One pass of `remove_outliers`: the rows whose z-score in column `j`,
      against the numbers of column `j` in these same rows, is defined and
      below `threshold`, in order. */
  function KeepWithin(rows: seq<Row>, j: nat, threshold: real): (r: seq<Row>)
    requires forall row :: row in rows ==> j < |row|
    ensures forall row {:trigger row in r} :: row in r <==> row in rows && ZBelow(row[j], Numbers(ColumnCells(rows, j)), threshold)
    ensures forall row {:trigger Count(r, row)} ::
      Count(r, row) == if row in rows && ZBelow(row[j], Numbers(ColumnCells(rows, j)), threshold) then Count(rows, row) else 0
  {
    var xs := Numbers(ColumnCells(rows, j));
    Filter((row: Row) => j < |row| && ZBelow(row[j], xs, threshold), rows)
  }

  /** The rows left once the numeric columns among the first `n` have each
      had their pass, in column order. */
  function OutliersRemoved(t: Table, threshold: real, n: nat): (r: seq<Row>)
    requires WellFormed(t) && n <= |t.columns|
    ensures forall row :: row in r ==> row in t.rows
  {
    if n == 0 then t.rows
    else
      var rows := OutliersRemoved(t, threshold, n - 1);
      if t.columns[n - 1].kind == Numeric then KeepWithin(rows, n - 1, threshold) else rows
  }

  /** `remove_outliers(df, threshold)`: each numeric column in turn filters
      the rows left by the columns before it, with its mean and standard
      deviation taken over those rows. */
  method RemoveOutliers(t: Table, threshold: real) returns (r: Table)
    requires WellFormed(t)
    ensures r == Table(t.columns, OutliersRemoved(t, threshold, |t.columns|))
  {
    var rows := t.rows;
    for j := 0 to |t.columns|
      invariant rows == OutliersRemoved(t, threshold, j)
    {
      if t.columns[j].kind == Numeric {
        rows := KeepWithin(rows, j, threshold);
      }
    }
    r := Table(t.columns, rows);
  }

  /** A filtering pass keeps an ordered subsequence of its rows, and so of
      any sequence they are an ordered subsequence of. */
  lemma KeepWithinIsSubseq(rows: seq<Row>, j: nat, threshold: real, all: seq<Row>)
    requires forall row :: row in rows ==> j < |row|
    requires IsSubseq(rows, all)
    ensures IsSubseq(KeepWithin(rows, j, threshold), all)
  {
    var xs := Numbers(ColumnCells(rows, j));
    FilterIsSubseq((row: Row) => j < |row| && ZBelow(row[j], xs, threshold), rows);
    SubseqTrans(KeepWithin(rows, j, threshold), rows, all);
  }

  /** Every row the passes keep has a cell for each column. */
  lemma OutliersRemovedRowsSized(t: Table, threshold: real, n: nat)
    requires WellFormed(t) && n <= |t.columns|
    ensures forall row :: row in OutliersRemoved(t, threshold, n) ==> |row| == |t.columns|
  {
    forall row | row in OutliersRemoved(t, threshold, n) ensures |row| == |t.columns| {
      assert row in t.rows;
    }
  }

  /** The outlier passes keep an ordered subsequence of the rows. */
  lemma {:induction false} OutliersRemovedIsSubseq(t: Table, threshold: real, n: nat)
    requires WellFormed(t) && n <= |t.columns|
    ensures IsSubseq(OutliersRemoved(t, threshold, n), t.rows)
  {
    if n == 0 {
      SubseqRefl(t.rows);
      assert OutliersRemoved(t, threshold, n) == t.rows;
    } else {
      var rows := OutliersRemoved(t, threshold, n - 1);
      OutliersRemovedIsSubseq(t, threshold, n - 1);
      if t.columns[n - 1].kind == Numeric {
        OutliersRemovedRowsSized(t, threshold, n - 1);
        KeepWithinIsSubseq(rows, n - 1, threshold, t.rows);
        assert OutliersRemoved(t, threshold, n) == KeepWithin(rows, n - 1, threshold);
      } else {
        assert OutliersRemoved(t, threshold, n) == rows;
      }
    }
  }

  /** Every row the passes keep has a number in each numeric column passed. */
  lemma {:induction false} OutliersRemovedNumeric(t: Table, threshold: real, n: nat)
    requires WellFormed(t) && n <= |t.columns|
    ensures forall row: Row, j :: row in OutliersRemoved(t, threshold, n) && 0 <= j < n && t.columns[j].kind == Numeric ==>
      row[j].Num?
  {
    if n > 0 {
      OutliersRemovedNumeric(t, threshold, n - 1);
      var rows := OutliersRemoved(t, threshold, n - 1);
      forall row: Row, j | row in OutliersRemoved(t, threshold, n) && 0 <= j < n && t.columns[j].kind == Numeric
        ensures row[j].Num?
      {
        assert row in rows;
      }
    }
  }

  /** Passes over columns that are not numeric keep every row. */
  lemma {:induction false} OutliersRemovedNoNumeric(t: Table, threshold: real, n: nat)
    requires WellFormed(t) && n <= |t.columns|
    requires forall j :: 0 <= j < n ==> t.columns[j].kind != Numeric
    ensures OutliersRemoved(t, threshold, n) == t.rows
  {
    if n > 0 {
      OutliersRemovedNoNumeric(t, threshold, n - 1);
    }
  }

  /** The outlier passes keep the columns and an ordered subsequence of the
      rows, so the table stays well formed; every kept row has a number in
      each numeric column passed, so a missing numeric cell removes its row;
      without numeric columns nothing is removed. */
  lemma RemoveOutliersProperties(t: Table, threshold: real, n: nat)
    requires WellFormed(t) && n <= |t.columns|
    ensures IsSubseq(OutliersRemoved(t, threshold, n), t.rows)
    ensures WellFormed(Table(t.columns, OutliersRemoved(t, threshold, n)))
    ensures forall row: Row, j :: row in OutliersRemoved(t, threshold, n) && 0 <= j < n && t.columns[j].kind == Numeric ==>
      row[j].Num?
    ensures (forall j :: 0 <= j < n ==> t.columns[j].kind != Numeric) ==> OutliersRemoved(t, threshold, n) == t.rows
  {
    OutliersRemovedIsSubseq(t, threshold, n);
    OutliersRemovedNumeric(t, threshold, n);
    if forall j :: 0 <= j < n ==> t.columns[j].kind != Numeric {
      OutliersRemovedNoNumeric(t, threshold, n);
    }
  }

  /** A pass whose z-scores are undefined (fewer than two numbers, or all of
      them equal) or whose threshold is not positive keeps no row. */
  lemma KeepWithinUndefined(rows: seq<Row>, j: nat, threshold: real)
    requires forall row :: row in rows ==> j < |row|
    requires !ZDefined(Numbers(ColumnCells(rows, j))) || threshold <= 0.0
    ensures KeepWithin(rows, j, threshold) == []
  {
    var xs := Numbers(ColumnCells(rows, j));
    FilterNone((row: Row) => j < |row| && ZBelow(row[j], xs, threshold), rows);
  }

  /** Once no row is left, later passes keep none. */
  lemma {:induction false} OutliersRemovedStaysEmpty(t: Table, threshold: real, k: nat, n: nat)
    requires WellFormed(t) && k <= n <= |t.columns|
    requires OutliersRemoved(t, threshold, k) == []
    ensures OutliersRemoved(t, threshold, n) == []
    decreases n
  {
    if n > k {
      OutliersRemovedStaysEmpty(t, threshold, k, n - 1);
    }
  }

  /** When the first numeric column is constant or has fewer than two
      numbers, or the threshold is not positive, `remove_outliers` removes
      every row. */
  lemma FirstNumericUndefinedEmpties(t: Table, threshold: real, j: nat)
    requires WellFormed(t) && j < |t.columns| && t.columns[j].kind == Numeric
    requires forall k :: 0 <= k < j ==> t.columns[k].kind != Numeric
    requires !ZDefined(Numbers(ColumnCells(t.rows, j))) || threshold <= 0.0
    ensures OutliersRemoved(t, threshold, |t.columns|) == []
  {
    RemoveOutliersProperties(t, threshold, j);
    KeepWithinUndefined(t.rows, j, threshold);
    OutliersRemovedStaysEmpty(t, threshold, j + 1, |t.columns|);
  }

  /** No row a pass keeps is one the profiler counts as an outlier at the
      same threshold, against the same statistics. */
  lemma KeptRowsAreNotOutliers(rows: seq<Row>, j: nat, threshold: real)
    requires forall row :: row in rows ==> j < |row|
    ensures forall row :: row in KeepWithin(rows, j, threshold) ==>
      !ZAbove(row[j], Numbers(ColumnCells(rows, j)), threshold)
  {
    var xs := Numbers(ColumnCells(rows, j));
    forall row | row in KeepWithin(rows, j, threshold) ensures !ZAbove(row[j], xs, threshold) {
      ZAboveExcludesBelow(row[j], xs, threshold);
    }
  }

  // ------------------------------------------------------ standardize_text

  /** `str.strip().str.lower()` on one cell of a column the `.str`
      accessor takes: a string is standardized into a string that `strip`
      and `lower` leave alone, and any other value becomes missing. */
  function StandardizeCell(c: Cell): (r: Cell)
    ensures r.Missing? <==> !c.Str?
    ensures r.Str? ==> Trim(r.s) == r.s && Lower(r.s) == r.s
  {
    if c.Str? then
      StandardizeFixed(c.s);
      Str(Standardize(c.s))
    else Missing
  }

  /** `standardize_text` raises: some object column has values but no
      string, which the `.str` accessor refuses. */
  predicate StandardizeRaises(t: Table)
    requires WellFormed(t)
  {
    exists j :: 0 <= j < |t.columns| && t.columns[j].kind == Object && StrAccessorRaises(ColumnCells(t.rows, j))
  }

  /** `row` with its cells in the text columns among the first `n`
      standardized. */
  function StandardizedUpTo(columns: seq<Column>, row: Row, n: nat): (r: Row)
    ensures |r| == |row|
  {
    seq(|row|, k requires 0 <= k < |row| =>
      if k < n && k < |columns| && columns[k].kind == Object then StandardizeCell(row[k]) else row[k])
  }

  /** The table `standardize_text` returns. */
  function TextStandardized(t: Table): Table
  {
    Table(t.columns, seq(|t.rows|, i requires 0 <= i < |t.rows| => StandardizedUpTo(t.columns, t.rows[i], |t.columns|)))
  }

  /** Standardizing column `j` of a row whose first `j` columns are done
      gives the row with its first `j + 1` columns done. */
  lemma StandardizedNext(columns: seq<Column>, row: Row, j: nat)
    requires j < |row| && j < |columns|
    ensures StandardizedUpTo(columns, row, j + 1) ==
      if columns[j].kind == Object then StandardizedUpTo(columns, row, j)[j := StandardizeCell(row[j])]
      else StandardizedUpTo(columns, row, j)
  {
  }

  /** Every row with its cell in column `j` standardized. */
  function StandardizeColumn(rows: seq<Row>, j: nat): (r: seq<Row>)
    ensures |r| == |rows|
  {
    seq(|rows|, i requires 0 <= i < |rows| =>
      if j < |rows[i]| then rows[i][j := StandardizeCell(rows[i][j])] else rows[i])
  }

  /** `rows` are the rows of `t` with their first `n` columns standardized. */
  predicate StandardizedRows(t: Table, rows: seq<Row>, n: nat)
  {
    |rows| == |t.rows| &&
    forall i :: 0 <= i < |rows| ==> rows[i] == StandardizedUpTo(t.columns, t.rows[i], n)
  }

  /** The `.str` accessor takes every object column among the first `n`. */
  predicate AcceptedBefore(t: Table, n: nat)
    requires WellFormed(t) && n <= |t.columns|
  {
    forall k :: 0 <= k < n && t.columns[k].kind == Object ==> !StrAccessorRaises(ColumnCells(t.rows, k))
  }

  /** One pass of the loop of `standardize_text`: from rows whose first `j`
      columns are done, standardizing column `j` when it is an object
      column gives rows whose first `j + 1` columns are done. */
  lemma StandardizeStep(t: Table, rows: seq<Row>, j: nat)
    requires WellFormed(t) && j < |t.columns| && StandardizedRows(t, rows, j)
    ensures t.columns[j].kind == Object ==> StandardizedRows(t, StandardizeColumn(rows, j), j + 1)
    ensures t.columns[j].kind != Object ==> StandardizedRows(t, rows, j + 1)
  {
    forall i | 0 <= i < |rows|
      ensures t.columns[j].kind == Object ==> StandardizeColumn(rows, j)[i] == StandardizedUpTo(t.columns, t.rows[i], j + 1)
      ensures t.columns[j].kind != Object ==> rows[i] == StandardizedUpTo(t.columns, t.rows[i], j + 1)
    {
      assert t.rows[i] in t.rows;
      StandardizedNext(t.columns, t.rows[i], j);
    }
  }

  /** Column `j` is untouched while the columns before it are
      standardized. */
  lemma StandardizedColumnUntouched(t: Table, rows: seq<Row>, j: nat)
    requires WellFormed(t) && j < |t.columns| && StandardizedRows(t, rows, j)
    ensures forall row :: row in rows ==> j < |row|
    ensures ColumnCells(rows, j) == ColumnCells(t.rows, j)
  {
    forall i | 0 <= i < |rows| ensures j < |rows[i]| && rows[i][j] == t.rows[i][j] {
      assert t.rows[i] in t.rows;
    }
  }

  /** A pass that meets an object column the `.str` accessor takes keeps
      every column so far accepted. */
  lemma AcceptedNext(t: Table, j: nat)
    requires WellFormed(t) && j < |t.columns| && AcceptedBefore(t, j)
    requires t.columns[j].kind == Object ==> !StrAccessorRaises(ColumnCells(t.rows, j))
    ensures AcceptedBefore(t, j + 1)
  {
  }

  /** After the last pass the rows are those of the standardized table,
      and no object column was refused. */
  lemma StandardizedAll(t: Table, rows: seq<Row>)
    requires WellFormed(t) && StandardizedRows(t, rows, |t.columns|) && AcceptedBefore(t, |t.columns|)
    ensures !StandardizeRaises(t)
    ensures rows == TextStandardized(t).rows
  {
  }

  /** `standardize_text(df)`: each object column in turn replaced by its
      standardized strings; it raises at the first object column the `.str`
      accessor refuses. */
  method StandardizeText(t: Table) returns (r: Outcome)
    requires WellFormed(t)
    ensures r == if StandardizeRaises(t) then StrAccessorError else Done(TextStandardized(t))
  {
    var rows := t.rows;
    for j := 0 to |t.columns|
      invariant StandardizedRows(t, rows, j)
      invariant AcceptedBefore(t, j)
    {
      StandardizeStep(t, rows, j);
      if t.columns[j].kind == Object {
        StandardizedColumnUntouched(t, rows, j);
        if StrAccessorRaises(ColumnCells(rows, j)) {
          assert StandardizeRaises(t);
          return StrAccessorError;
        }
        rows := StandardizeColumn(rows, j);
      }
      AcceptedNext(t, j);
    }
    StandardizedAll(t, rows);
    r := Done(Table(t.columns, rows));
  }

  /** `standardize_text` keeps the columns and the rows; in each object
      column it standardizes the strings and turns the other values into
      missing cells; it leaves the other columns alone and keeps the table
      well formed. */
  lemma StandardizeTextProperties(t: Table)
    requires WellFormed(t)
    ensures var r := TextStandardized(t);
      WellFormed(r) && r.columns == t.columns && |r.rows| == |t.rows|
      && forall i, j :: 0 <= i < |t.rows| && 0 <= j < |t.columns| ==>
           r.rows[i][j] == if t.columns[j].kind == Object then StandardizeCell(t.rows[i][j]) else t.rows[i][j]
  {
    var r := TextStandardized(t);
    forall row | row in r.rows
      ensures |row| == |t.columns| && forall j :: 0 <= j < |t.columns| ==> Fits(t.columns[j].kind, row[j])
    {
      var i :| 0 <= i < |r.rows| && r.rows[i] == row;
      assert t.rows[i] in t.rows;
    }
    forall i, j | 0 <= i < |t.rows| && 0 <= j < |t.columns|
      ensures r.rows[i][j] == if t.columns[j].kind == Object then StandardizeCell(t.rows[i][j]) else t.rows[i][j]
    {
      assert t.rows[i] in t.rows;
    }
  }

  lemma StandardizeCellIdempotent(c: Cell)
    ensures StandardizeCell(StandardizeCell(c)) == StandardizeCell(c)
  {
    if c.Str? {
      StandardizeFixed(c.s);
    }
  }

  /** Standardizing text twice is the same as standardizing it once. */
  lemma StandardizeTextIdempotent(t: Table)
    requires WellFormed(t)
    ensures TextStandardized(TextStandardized(t)) == TextStandardized(t)
  {
    var r := TextStandardized(t);
    var rr := TextStandardized(r);
    forall i | 0 <= i < |r.rows| ensures rr.rows[i] == r.rows[i] {
      forall k | 0 <= k < |r.rows[i]| ensures rr.rows[i][k] == r.rows[i][k] {
        StandardizeCellIdempotent(t.rows[i][k]);
      }
    }
  }

  /** The profiler's sample of a column holds present cells of that column. */
  lemma SampleMembers(cells: seq<Cell>)
    ensures forall c :: c in Analyzer.Sample(cells) ==> c in cells && !c.Missing?
  {
    var present := NonMissing(cells);
    if |present| > 100 {
      assert forall c :: c in present[..100] ==> c in present;
    }
  }

  /** Every present cell of an object column of a standardized table is a
      string that `strip` and `lower` leave alone. */
  lemma StandardizedColumnStrings(t: Table, j: nat)
    requires WellFormed(t) && j < |t.columns| && t.columns[j].kind == Object
    ensures forall c :: c in ColumnCells(TextStandardized(t).rows, j) && !c.Missing? ==>
      c.Str? && Trim(c.s) == c.s && Lower(c.s) == c.s
  {
    var r := TextStandardized(t);
    var cells := ColumnCells(r.rows, j);
    forall c | c in cells && !c.Missing? ensures c.Str? && Trim(c.s) == c.s && Lower(c.s) == c.s {
      var i :| 0 <= i < |cells| && cells[i] == c;
      assert t.rows[i] in t.rows;
      assert cells[i] == StandardizeCell(t.rows[i][j]);
    }
  }

  /** The profiler's text check neither raises on nor flags column `j` of a
      standardized table. */
  lemma StandardizedColumnNotFlagged(t: Table, j: nat)
    requires WellFormed(t) && j < |t.columns|
    ensures WellFormed(TextStandardized(t))
    ensures !Analyzer.TextRaises(TextStandardized(t), j)
    ensures !Analyzer.TextFlagged(TextStandardized(t), j)
  {
    StandardizeTextProperties(t);
    if t.columns[j].kind == Object {
      var r := TextStandardized(t);
      var cells := ColumnCells(r.rows, j);
      var sample := Analyzer.Sample(cells);
      StandardizedColumnStrings(t, j);
      SampleMembers(cells);
      StandardizedSampleNotFlagged(sample);
    }
  }

  /** A sample of strings that `strip` and `lower` leave alone is taken by
      the `.str` accessor and is neither padded nor of mixed case. */
  lemma StandardizedSampleNotFlagged(sample: seq<Cell>)
    requires forall c :: c in sample ==> c.Str? && Trim(c.s) == c.s && Lower(c.s) == c.s
    ensures !StrAccessorRaises(sample) && !Analyzer.HasNonString(sample)
    ensures !Analyzer.HasPadding(Strings(sample)) && !Analyzer.HasMixedCase(Strings(sample))
  {
    forall k | 0 <= k < |sample| ensures sample[k].Str? {
      assert sample[k] in sample;
    }
    var ss := Strings(sample);
    StringsMembers(sample);
    forall k | 0 <= k < |ss| ensures Trim(ss[k]) == ss[k] && Lower(ss[k]) == ss[k] {
      assert ss[k] in ss;
      assert Str(ss[k]) in sample;
    }
  }

  /** After `standardize_text` the profiler's text check does not raise,
      flags no column and reports no issue. */
  lemma StandardizedTextNotFlagged(t: Table)
    requires WellFormed(t)
    ensures WellFormed(TextStandardized(t))
    ensures !Analyzer.TextRaisesBefore(TextStandardized(t), |t.columns|)
    ensures Analyzer.TextColumns(TextStandardized(t), |t.columns|) == []
    ensures Analyzer.TextIssue(TextStandardized(t)) == None
  {
    var r := TextStandardized(t);
    StandardizeTextProperties(t);
    forall j | 0 <= j < |t.columns| ensures !Analyzer.TextFlagged(r, j) && !Analyzer.TextRaises(r, j) {
      StandardizedColumnNotFlagged(t, j);
    }
    NoFlagsNoTextColumns(r, |t.columns|);
  }

  lemma {:induction false} NoFlagsNoTextColumns(t: Table, n: nat)
    requires WellFormed(t) && n <= |t.columns|
    requires forall j :: 0 <= j < n ==> !Analyzer.TextFlagged(t, j)
    ensures Analyzer.TextColumns(t, n) == []
  {
    if n > 0 {
      NoFlagsNoTextColumns(t, n - 1);
      assert !Analyzer.TextFlagged(t, n - 1);
    }
  }

  // --------------------------------------------------------- convert_types

  /** pandas' integer for `NaT` (the smallest 64-bit integer), which is what
      a missing timestamp becomes when a datetime column is read as
      integers. */
  const NaTValue: int := -0x8000_0000_0000_0000

  /** `pd.to_numeric` succeeds on column `j`: every value in it reads as a
      number. */
  predicate NumbersParse(p: Parsers, rows: seq<Row>, j: nat)
    requires forall row :: row in rows ==> j < |row|
  {
    forall i :: 0 <= i < |rows| ==> !rows[i][j].Missing? ==> NumberOf(p, rows[i][j]).Some?
  }

  /** `pd.to_datetime` succeeds on column `j`: every value in it reads as a
      timestamp. */
  predicate DatesParse(p: Parsers, rows: seq<Row>, j: nat)
    requires forall row :: row in rows ==> j < |row|
  {
    forall i :: 0 <= i < |rows| ==> !rows[i][j].Missing? ==> StampOf(p, rows[i][j]).Some?
  }

  /** The dtype column `j`, of kind `kind`, has after `convert_types`: a
      text column becomes numeric when `to_numeric` succeeds, else a
      datetime column when `to_datetime` succeeds, else stays text; a
      datetime column is read by `to_numeric` as integers; numeric and other
      columns keep their dtype. */
  function Target(p: Parsers, kind: Kind, rows: seq<Row>, j: nat): Kind
    requires forall row :: row in rows ==> j < |row|
  {
    if kind == Object && NumbersParse(p, rows, j) then Numeric
    else if kind == Object && DatesParse(p, rows, j) then Datetime
    else if kind == Datetime then Numeric
    else kind
  }

  /** One cell of a column converted from `from` to `to`. */
  function ConvertCell(p: Parsers, from: Kind, to: Kind, c: Cell): Cell
  {
    if from == Object && to == Numeric && NumberOf(p, c).Some? then Num(NumberOf(p, c).value)
    else if from == Object && to == Datetime && StampOf(p, c).Some? then Stamp(StampOf(p, c).value)
    else if from == Datetime && to == Numeric then
      (if c.Stamp? then Num(c.t as real) else if c.Missing? then Num(NaTValue as real) else c)
    else c
  }

  /** The dtype column `j` of `t` has after `convert_types`. */
  function Conversion(t: Table, p: Parsers, j: nat): Kind
    requires WellFormed(t) && j < |t.columns|
  {
    Target(p, t.columns[j].kind, t.rows, j)
  }

  /** Row `row` of `t` with its first `n` columns converted. */
  function ConvertedUpTo(t: Table, p: Parsers, row: Row, n: nat): (r: Row)
    requires WellFormed(t)
    ensures |r| == |row|
  {
    seq(|row|, k requires 0 <= k < |row| =>
      if k < n && k < |t.columns| then ConvertCell(p, t.columns[k].kind, Conversion(t, p, k), row[k]) else row[k])
  }

  /** The table `convert_types` returns. */
  function Converted(t: Table, p: Parsers): Table
    requires WellFormed(t)
  {
    Table(seq(|t.columns|, j requires 0 <= j < |t.columns| => Column(t.columns[j].name, Conversion(t, p, j))),
          seq(|t.rows|, i requires 0 <= i < |t.rows| => ConvertedUpTo(t, p, t.rows[i], |t.columns|)))
  }

  /** Converting column `j` of a row whose first `j` columns are done gives
      the row with its first `j + 1` columns done. */
  lemma ConvertedNext(t: Table, p: Parsers, row: Row, j: nat)
    requires WellFormed(t) && j < |row| && j < |t.columns|
    ensures ConvertedUpTo(t, p, row, j + 1) ==
      ConvertedUpTo(t, p, row, j)[j := ConvertCell(p, t.columns[j].kind, Conversion(t, p, j), row[j])]
  {
  }

  /** Every row of `rows` is the matching row of `t` with its first `n`
      columns converted. */
  predicate RowsConvertedUpTo(t: Table, p: Parsers, rows: seq<Row>, n: nat)
    requires WellFormed(t)
  {
    |rows| == |t.rows| && forall i :: 0 <= i < |rows| ==> rows[i] == ConvertedUpTo(t, p, t.rows[i], n)
  }

  /** `df[col] = converted`: column `j` of every row converted from `from`
      to `to`. */
  function ConvertColumn(p: Parsers, rows: seq<Row>, j: nat, from: Kind, to: Kind): (r: seq<Row>)
    ensures |r| == |rows|
  {
    seq(|rows|, i requires 0 <= i < |rows| =>
      if j < |rows[i]| then rows[i][j := ConvertCell(p, from, to, rows[i][j])] else rows[i])
  }

  /** Column `j` is still as in `t` while the columns before it are
      converted, so it gets its own conversion, and converting it extends the
      converted prefix by one column. */
  lemma ConvertColumnStep(t: Table, p: Parsers, rows: seq<Row>, j: nat)
    requires WellFormed(t) && j < |t.columns| && RowsConvertedUpTo(t, p, rows, j)
    ensures forall row :: row in rows ==> j < |row|
    ensures Target(p, t.columns[j].kind, rows, j) == Conversion(t, p, j)
    ensures RowsConvertedUpTo(t, p, ConvertColumn(p, rows, j, t.columns[j].kind, Conversion(t, p, j)), j + 1)
  {
    forall i | 0 <= i < |rows| ensures j < |rows[i]| && rows[i][j] == t.rows[i][j] {
      assert t.rows[i] in t.rows;
    }
    assert NumbersParse(p, rows, j) == NumbersParse(p, t.rows, j);
    assert DatesParse(p, rows, j) == DatesParse(p, t.rows, j);
    var next := ConvertColumn(p, rows, j, t.columns[j].kind, Conversion(t, p, j));
    forall i | 0 <= i < |next| ensures next[i] == ConvertedUpTo(t, p, t.rows[i], j + 1) {
      assert t.rows[i] in t.rows;
      ConvertedNext(t, p, t.rows[i], j);
    }
  }

  /** `convert_types(df)`: each column in turn replaced by its numeric
      conversion, else its datetime conversion, else left as it is. */
  method ConvertTypes(t: Table, p: Parsers) returns (r: Table)
    requires WellFormed(t)
    ensures r == Converted(t, p)
  {
    var columns := t.columns;
    var rows := t.rows;
    for j := 0 to |t.columns|
      invariant |columns| == |t.columns|
      invariant forall k :: 0 <= k < |columns| ==>
        columns[k] == if k < j then Column(t.columns[k].name, Conversion(t, p, k)) else t.columns[k]
      invariant RowsConvertedUpTo(t, p, rows, j)
    {
      ConvertColumnStep(t, p, rows, j);
      var from := columns[j].kind;
      var to := Target(p, from, rows, j);
      rows := ConvertColumn(p, rows, j, from, to);
      columns := columns[j := Column(columns[j].name, to)];
    }
    r := Table(columns, rows);
  }

  /** A converted cell fits the column's new dtype. */
  lemma ConvertCellFits(t: Table, p: Parsers, i: nat, j: nat)
    requires WellFormed(t) && i < |t.rows| && j < |t.columns|
    ensures Fits(Conversion(t, p, j), ConvertCell(p, t.columns[j].kind, Conversion(t, p, j), t.rows[i][j]))
  {
    assert t.rows[i] in t.rows;
  }

  /** `convert_types` keeps the rows and the column names, converts each
      column as a whole (every cell of a converted column fits its new dtype,
      and a column whose dtype stays has every cell unchanged), never changes
      a numeric column, and keeps the table well formed. */
  lemma ConvertTypesProperties(t: Table, p: Parsers)
    requires WellFormed(t)
    ensures var r := Converted(t, p);
      WellFormed(r) && |r.columns| == |t.columns| && |r.rows| == |t.rows|
      && (forall j :: 0 <= j < |t.columns| ==> r.columns[j].name == t.columns[j].name)
      && (forall j :: 0 <= j < |t.columns| && t.columns[j].kind == Numeric ==> r.columns[j].kind == Numeric)
      && (forall i, j :: 0 <= i < |t.rows| && 0 <= j < |t.columns| && r.columns[j].kind == t.columns[j].kind ==>
            r.rows[i][j] == t.rows[i][j])
  {
    ConvertedWellFormed(t, p);
    var r := Converted(t, p);
    forall i, j | 0 <= i < |t.rows| && 0 <= j < |t.columns| && r.columns[j].kind == t.columns[j].kind
      ensures r.rows[i][j] == t.rows[i][j]
    {
      assert t.rows[i] in t.rows;
    }
  }

  /** Every converted cell fits its column's new dtype. */
  lemma ConvertedWellFormed(t: Table, p: Parsers)
    requires WellFormed(t)
    ensures WellFormed(Converted(t, p))
  {
    var r := Converted(t, p);
    forall row | row in r.rows
      ensures |row| == |r.columns| && forall j :: 0 <= j < |r.columns| ==> Fits(r.columns[j].kind, row[j])
    {
      var i :| 0 <= i < |r.rows| && r.rows[i] == row;
      assert t.rows[i] in t.rows;
      forall j | 0 <= j < |r.columns| ensures Fits(r.columns[j].kind, row[j]) {
        ConvertCellFits(t, p, i, j);
      }
    }
  }

  /** An object column becomes numeric exactly when every value in it
      reads as a number, and then each value is replaced by its number;
      otherwise it becomes a datetime column exactly when every value reads
      as a timestamp, and each value is replaced by its timestamp. Missing
      cells stay missing. */
  lemma ConvertTextColumn(t: Table, p: Parsers, j: nat)
    requires WellFormed(t) && j < |t.columns| && t.columns[j].kind == Object
    ensures var r := Converted(t, p);
      (r.columns[j].kind == Numeric <==> NumbersParse(p, t.rows, j))
      && (r.columns[j].kind == Datetime <==> !NumbersParse(p, t.rows, j) && DatesParse(p, t.rows, j))
      && (r.columns[j].kind == Object <==> !NumbersParse(p, t.rows, j) && !DatesParse(p, t.rows, j))
      && forall i :: 0 <= i < |t.rows| ==>
           r.rows[i][j] == if r.columns[j].kind == Numeric && !t.rows[i][j].Missing? then Num(NumberOf(p, t.rows[i][j]).value)
                           else if r.columns[j].kind == Datetime && !t.rows[i][j].Missing? then Stamp(StampOf(p, t.rows[i][j]).value)
                           else t.rows[i][j]
  {
    var r := Converted(t, p);
    forall i | 0 <= i < |t.rows| ensures r.rows[i][j] == if r.columns[j].kind == Numeric && !t.rows[i][j].Missing? then Num(NumberOf(p, t.rows[i][j]).value)
                           else if r.columns[j].kind == Datetime && !t.rows[i][j].Missing? then Stamp(StampOf(p, t.rows[i][j]).value)
                           else t.rows[i][j]
    {
      assert t.rows[i] in t.rows;
    }
  }

  /** `to_numeric` reads a datetime column as its timestamps in
      nanoseconds, with each missing timestamp becoming pandas' integer for
      `NaT`, so the column ends up numeric with no missing cell. */
  lemma ConvertDatetimeColumn(t: Table, p: Parsers, j: nat)
    requires WellFormed(t) && j < |t.columns| && t.columns[j].kind == Datetime
    ensures var r := Converted(t, p);
      r.columns[j].kind == Numeric
      && forall i :: 0 <= i < |t.rows| ==>
           r.rows[i][j] == if t.rows[i][j].Stamp? then Num(t.rows[i][j].t as real) else Num(NaTValue as real)
  {
    var r := Converted(t, p);
    forall i | 0 <= i < |t.rows|
      ensures r.rows[i][j] == if t.rows[i][j].Stamp? then Num(t.rows[i][j].t as real) else Num(NaTValue as real)
    {
      assert t.rows[i] in t.rows;
    }
  }

  /** Converting a converted table again changes only its datetime columns,
      which become numeric: `convert_types` is idempotent exactly on the
      tables it leaves without a datetime column. */
  lemma ConvertTwice(t: Table, p: Parsers)
    requires WellFormed(t)
    ensures WellFormed(Converted(t, p))
    ensures forall j :: 0 <= j < |t.columns| ==>
      Conversion(Converted(t, p), p, j) == if Converted(t, p).columns[j].kind == Datetime then Numeric else Converted(t, p).columns[j].kind
    ensures (forall j :: 0 <= j < |t.columns| ==> Converted(t, p).columns[j].kind != Datetime) ==>
      Converted(Converted(t, p), p) == Converted(t, p)
  {
    var r := Converted(t, p);
    ConvertTypesProperties(t, p);
    forall j | 0 <= j < |t.columns|
      ensures Conversion(r, p, j) == if r.columns[j].kind == Datetime then Numeric else r.columns[j].kind
    {
      if r.columns[j].kind == Object {
        assert NumbersParse(p, r.rows, j) == NumbersParse(p, t.rows, j);
        assert DatesParse(p, r.rows, j) == DatesParse(p, t.rows, j);
      }
    }
    if forall j :: 0 <= j < |t.columns| ==> r.columns[j].kind != Datetime {
      var rr := Converted(r, p);
      assert rr.columns == r.columns;
      forall i | 0 <= i < |r.rows| ensures rr.rows[i] == r.rows[i] {
        assert r.rows[i] in r.rows;
      }
    }
  }

  /** Whenever `convert_types` converts an object column, the profiler's
      wrong-types check suggests a conversion for it too (when it has a
      value): numeric for a column that becomes numeric. */
  lemma ConversionIsSuggested(t: Table, p: Parsers, j: nat)
    requires WellFormed(t) && j < |t.columns| && t.columns[j].kind == Object
    requires |Analyzer.Sample(ColumnCells(t.rows, j))| > 0
    ensures Conversion(t, p, j) == Numeric ==> Analyzer.TypeSuggestionOf(t, p, j) == Some(Analyzer.SuggestNumeric)
    ensures Conversion(t, p, j) == Datetime ==> Analyzer.TypeSuggestionOf(t, p, j).Some?
  {
    var cells := ColumnCells(t.rows, j);
    var sample := Analyzer.Sample(cells);
    SampleMembers(cells);
    if Conversion(t, p, j) == Numeric {
      forall k | 0 <= k < |sample| ensures NumberOf(p, sample[k]).Some? {
        assert sample[k] in sample;
        var i :| 0 <= i < |cells| && cells[i] == sample[k];
      }
      assert Analyzer.AllParseNumeric(p, sample);
    } else if Conversion(t, p, j) == Datetime {
      forall k | 0 <= k < |sample| ensures StampOf(p, sample[k]).Some? {
        assert sample[k] in sample;
        var i :| 0 <= i < |cells| && cells[i] == sample[k];
      }
      assert Analyzer.AllParseDatetime(p, sample);
    }
  }

  // -------------------------------------------------------------- pipeline

  /** The cleaning options the user picks: which steps run, and the
      strategy for missing values. */
  datatype Options = Options(
    removeDuplicates: bool,
    handleMissing: bool,
    strategy: MissingStrategy,
    removeOutliers: bool,
    standardizeText: bool,
    convertTypes: bool)

  /** The threshold `remove_outliers` is called with by default. */
  const DefaultThreshold: real := 3.0

  /** What the cleaning run produces: the chosen steps applied in the order
      duplicates, missing values, outliers, text, types, each to the table
      the step before it left; an error of "Fill with mode" or of the `.str`
      accessor ends the run. */
  function CleanSpec(t: Table, p: Parsers, o: Options): (r: Outcome)
    requires WellFormed(t)
  {
    RemoveDuplicatesProperties(t);
    var deduplicated := if o.removeDuplicates then RemoveDuplicates(t) else t;
    HandleMissingWellFormed(deduplicated, o.strategy);
    var filled := if o.handleMissing then HandleMissing(deduplicated, o.strategy) else Done(deduplicated);
    if !filled.Done? then filled else FinishSpec(filled.table, p, o)
  }

  /** The steps of the cleaning run after the missing values: outliers,
      text, types. */
  function FinishSpec(t: Table, p: Parsers, o: Options): (r: Outcome)
    requires WellFormed(t)
  {
    RemoveOutliersProperties(t, DefaultThreshold, |t.columns|);
    var trimmed := if o.removeOutliers then Table(t.columns, OutliersRemoved(t, DefaultThreshold, |t.columns|)) else t;
    StandardizeTextProperties(trimmed);
    if o.standardizeText && StandardizeRaises(trimmed) then StrAccessorError
    else
      var standardized := if o.standardizeText then TextStandardized(trimmed) else trimmed;
      Done(if o.convertTypes then Converted(standardized, p) else standardized)
  }

  /** Outliers, text and types never fill a mode; they fail only when text
      standardization meets an object column without a string; otherwise
      they keep the column names in order, never add rows, and keep the
      table well formed. */
  lemma FinishSpecProperties(t: Table, p: Parsers, o: Options)
    requires WellFormed(t)
    ensures var r := FinishSpec(t, p, o);
      && !r.ModeIndexError?
      && (r.StrAccessorError? ==> o.standardizeText)
      && (r.Done? ==> WellFormed(r.table) && |r.table.rows| <= |t.rows| && |r.table.columns| == |t.columns|
                      && forall j :: 0 <= j < |t.columns| ==> r.table.columns[j].name == t.columns[j].name)
  {
    RemoveOutliersProperties(t, DefaultThreshold, |t.columns|);
    var t3 := if o.removeOutliers then Table(t.columns, OutliersRemoved(t, DefaultThreshold, |t.columns|)) else t;
    if o.removeOutliers {
      SubseqLength(t3.rows, t.rows);
    }
    StandardizeTextProperties(t3);
    if !(o.standardizeText && StandardizeRaises(t3)) {
      var t4 := if o.standardizeText then TextStandardized(t3) else t3;
      ConvertTypesProperties(t4, p);
    }
  }

  /** The cleaning run fails only when "Fill with mode" meets a table
      without a value, or when text standardization meets an object column
      without a string; otherwise its table keeps the column names in order,
      never has more rows than the input, and is well formed. */
  lemma CleanSpecProperties(t: Table, p: Parsers, o: Options)
    requires WellFormed(t)
    ensures var r := CleanSpec(t, p, o);
      && (r.ModeIndexError? <==> o.handleMissing && o.strategy == FillMode
                                 && !HasSomeValue(if o.removeDuplicates then RemoveDuplicates(t) else t))
      && (r.StrAccessorError? ==> o.standardizeText)
      && (r.Done? ==> WellFormed(r.table) && |r.table.rows| <= |t.rows| && |r.table.columns| == |t.columns|
                      && forall j :: 0 <= j < |t.columns| ==> r.table.columns[j].name == t.columns[j].name)
  {
    RemoveDuplicatesProperties(t);
    var t1 := if o.removeDuplicates then RemoveDuplicates(t) else t;
    if o.removeDuplicates {
      SubseqLength(t1.rows, t.rows);
    }
    HandleMissingWellFormed(t1, o.strategy);
    var filled := if o.handleMissing then HandleMissing(t1, o.strategy) else Done(t1);
    if filled.Done? {
      var t2 := filled.table;
      if o.handleMissing && o.strategy == DropRows {
        FilterIsSubseq(Complete, t1.rows);
        SubseqLength(t2.rows, t1.rows);
      }
      FinishSpecProperties(t2, p, o);
    }
  }

  /** The cleaning run, step by step: the chosen steps, always in the order
      duplicates, missing values, outliers, text, types. */
  method Clean(t: Table, p: Parsers, o: Options) returns (r: Outcome)
    requires WellFormed(t)
    ensures r == CleanSpec(t, p, o)
  {
    var cleaned := t;
    RemoveDuplicatesProperties(cleaned);
    if o.removeDuplicates {
      cleaned := RemoveDuplicates(cleaned);
    }
    if o.handleMissing {
      HandleMissingWellFormed(cleaned, o.strategy);
      var outcome := HandleMissing(cleaned, o.strategy);
      if !outcome.Done? {
        return outcome;
      }
      cleaned := outcome.table;
    }
    RemoveOutliersProperties(cleaned, DefaultThreshold, |cleaned.columns|);
    if o.removeOutliers {
      cleaned := RemoveOutliers(cleaned, DefaultThreshold);
    }
    StandardizeTextProperties(cleaned);
    if o.standardizeText {
      var outcome := StandardizeText(cleaned);
      if !outcome.Done? {
        return outcome;
      }
      cleaned := outcome.table;
    }
    if o.convertTypes {
      cleaned := ConvertTypes(cleaned, p);
    }
    r := Done(cleaned);
  }
}
