/** `DataAnalyzer`: profiles a table (its missing-value summary and one line
    of information per column), detects five kinds of defect and recommends
    cleaning steps for them, and scores the table's quality from 0 to 100.
    It only reads the table. */
module Analyzer {
  import opened Seqs
  import opened Text
  import opened Frames
  import opened Stats

  /** `part / whole * 100`. */
  function Percent(part: nat, whole: nat): real
    requires whole > 0
  {
    (part as real) / (whole as real) * 100.0
  }

  lemma PercentBounds(part: nat, whole: nat)
    requires whole > 0
    ensures Percent(part, whole) >= 0.0
    ensures part > 0 ==> Percent(part, whole) > 0.0
    ensures part <= whole ==> Percent(part, whole) <= 100.0
    ensures part == 0 ==> Percent(part, whole) == 0.0
  {
    var p, w := part as real, whole as real;
    if part <= whole {
      QuotientBounds(p, w, 0.0, 1.0);
    } else {
      ProductPositive(w, p);
      assert w * p >= p;
      QuotientBounds(p, w, 0.0, p);
    }
    if part > 0 {
      QuotientPositive(p, w);
    }
  }

  /** `df[col].isnull().sum()` for column `j`. */
  function ColumnMissing(t: Table, j: nat): nat
    requires WellFormed(t) && j < |t.columns|
  {
    MissingCount(ColumnCells(t.rows, j))
  }

  lemma ColumnMissingBound(t: Table, j: nat)
    requires WellFormed(t) && j < |t.columns|
    ensures ColumnMissing(t, j) <= |t.rows|
  {
    MissingPlusPresent(ColumnCells(t.rows, j));
  }

  // ------------------------------------------------- get_missing_summary

  datatype MissingEntry = MissingEntry(column: string, count: nat, percentage: real)

  /** The summary line of a column that has missing cells. */
  function EntryOf(t: Table, j: nat): (e: MissingEntry)
    requires WellFormed(t) && j < |t.columns| && ColumnMissing(t, j) > 0
    ensures e.column == t.columns[j].name && e.count == ColumnMissing(t, j)
    ensures 0.0 < e.percentage <= 100.0
  {
    ColumnMissingBound(t, j);
    PercentBounds(ColumnMissing(t, j), |t.rows|);
    MissingEntry(t.columns[j].name, ColumnMissing(t, j), Percent(ColumnMissing(t, j), |t.rows|))
  }

  /** The lines of the first `n` columns that have missing cells, in column
      order: `summary[summary['missing_count'] > 0]`. */
  function MissingEntries(t: Table, n: nat): seq<MissingEntry>
    requires WellFormed(t) && n <= |t.columns|
  {
    if n == 0 then []
    else
      var init := MissingEntries(t, n - 1);
      if ColumnMissing(t, n - 1) > 0 then init + [EntryOf(t, n - 1)] else init
  }

  /** The candidate lines are those of the columns with a missing cell. */
  lemma MissingEntriesMembers(t: Table, n: nat)
    requires WellFormed(t) && n <= |t.columns|
    ensures forall e :: e in MissingEntries(t, n) <==>
      exists j :: 0 <= j < n && ColumnMissing(t, j) > 0 && e == EntryOf(t, j)
  {
    MissingEntriesSelected(t, n);
    SelectMembers(HasMissingAt(t), EntryAt(t), n);
    forall e ensures e in MissingEntries(t, n) <==>
      exists j :: 0 <= j < n && ColumnMissing(t, j) > 0 && e == EntryOf(t, j)
    {
      if e in MissingEntries(t, n) {
        var j :| 0 <= j < n && HasMissingAt(t)(j) && e == EntryAt(t)(j);
        assert ColumnMissing(t, j) > 0 && e == EntryOf(t, j);
      }
      if exists j :: 0 <= j < n && ColumnMissing(t, j) > 0 && e == EntryOf(t, j) {
        var j :| 0 <= j < n && ColumnMissing(t, j) > 0 && e == EntryOf(t, j);
        assert HasMissingAt(t)(j) && e == EntryAt(t)(j);
      }
    }
  }

  /** Whether column `j` has a missing cell, as a function of the index. */
  function HasMissingAt(t: Table): nat -> bool
  {
    (j: nat) => WellFormed(t) && j < |t.columns| && ColumnMissing(t, j) > 0
  }

  /** The summary line of column `j`, as a function of the index. */
  function EntryAt(t: Table): nat -> MissingEntry
  {
    (j: nat) => if HasMissingAt(t)(j) then EntryOf(t, j) else MissingEntry([], 0, 0.0)
  }

  /** The summary lines are those of the columns with a missing cell, in
      column order. */
  lemma {:induction false} MissingEntriesSelected(t: Table, n: nat)
    requires WellFormed(t) && n <= |t.columns|
    ensures MissingEntries(t, n) == Select(HasMissingAt(t), EntryAt(t), n)
  {
    if n > 0 {
      MissingEntriesSelected(t, n - 1);
      var init := MissingEntries(t, n - 1);
      if ColumnMissing(t, n - 1) > 0 {
        assert HasMissingAt(t)(n - 1);
        assert EntryAt(t)(n - 1) == EntryOf(t, n - 1);
        assert MissingEntries(t, n) == init + [EntryOf(t, n - 1)];
      } else {
        assert !HasMissingAt(t)(n - 1);
        assert MissingEntries(t, n) == init;
      }
    }
  }

  predicate ByPercentageDescending(es: seq<MissingEntry>)
  {
    forall a, b :: 0 <= a < b < |es| ==> es[a].percentage >= es[b].percentage
  }

  /** Putting the head of `es` back in front of the insertion into its tail
      keeps the order and gives a permutation of `es` and `e`. */
  lemma InsertByPercentageStep(e: MissingEntry, es: seq<MissingEntry>, rest: seq<MissingEntry>)
    requires ByPercentageDescending(es) && es != [] && e.percentage < es[0].percentage
    requires ByPercentageDescending(rest) && multiset(rest) == multiset(es[1..]) + multiset{e}
    ensures ByPercentageDescending([es[0]] + rest)
    ensures multiset([es[0]] + rest) == multiset(es) + multiset{e}
  {
    assert es == [es[0]] + es[1..];
    forall i | 0 <= i < |rest| ensures es[0].percentage >= rest[i].percentage {
      assert rest[i] in multiset(rest);
      if rest[i] != e {
        assert rest[i] in multiset(es[1..]);
        var k :| 0 <= k < |es[1..]| && es[1..][k] == rest[i];
        assert es[k + 1] == rest[i];
      }
    }
  }

  function InsertByPercentage(e: MissingEntry, es: seq<MissingEntry>): (r: seq<MissingEntry>)
    requires ByPercentageDescending(es)
    ensures ByPercentageDescending(r)
    ensures multiset(r) == multiset(es) + multiset{e}
  {
    if es == [] || e.percentage >= es[0].percentage then [e] + es
    else
      var rest := InsertByPercentage(e, es[1..]);
      InsertByPercentageStep(e, es, rest);
      [es[0]] + rest
  }

  /** `sort_values('missing_percentage', ascending=False)`, keeping equal
      percentages in column order. */
  function SortByPercentage(es: seq<MissingEntry>): (r: seq<MissingEntry>)
    ensures ByPercentageDescending(r)
    ensures multiset(r) == multiset(es)
  {
    if es == [] then []
    else
      assert es == [es[0]] + es[1..];
      InsertByPercentage(es[0], SortByPercentage(es[1..]))
  }

  /** `get_missing_summary`: one line for each column with at least one
      missing cell and for no other column, carrying its count and its share
      of the rows, largest share first. */
  function MissingSummary(t: Table): (r: seq<MissingEntry>)
    requires WellFormed(t)
    ensures ByPercentageDescending(r)
    ensures multiset(r) == multiset(MissingEntries(t, |t.columns|))
    ensures forall e :: e in r <==>
      exists j :: 0 <= j < |t.columns| && ColumnMissing(t, j) > 0 && e == EntryOf(t, j)
  {
    var es := MissingEntries(t, |t.columns|);
    var r := SortByPercentage(es);
    MissingEntriesMembers(t, |t.columns|);
    assert forall e :: e in r <==> e in es by {
      forall e ensures e in r <==> e in es {
        assert e in r <==> e in multiset(r);
        assert e in es <==> e in multiset(es);
      }
    }
    r
  }

  // ------------------------------------------------------ get_column_info

  /** A Mean/Min/Max field: `'-'` for a non-numeric column, `nan` for a
      numeric column without values, otherwise the number (before its
      two-decimal formatting). */
  datatype Stat = Dash | NaN | Value(v: real)

  datatype ColumnInfo = ColumnInfo(
    column: string, kind: Kind, nonNull: nat, nulls: nat, unique: nat,
    mean: Stat, min: Stat, max: Stat)

  /** `nunique()`: how many distinct values the cells hold. */
  function DistinctCount(cells: seq<Cell>): nat
  {
    |set c | c in cells|
  }

  lemma {:induction false} DistinctBound(cells: seq<Cell>)
    ensures DistinctCount(cells) <= |cells|
    decreases |cells|
  {
    if cells != [] {
      var init := cells[..|cells| - 1];
      DistinctBound(init);
      assert cells == init + [cells[|cells| - 1]];
      assert (set c | c in cells) == (set c | c in init) + {cells[|cells| - 1]};
    }
  }

  /** The information line of a column with the given cells. */
  function LineOf(column: Column, cells: seq<Cell>): ColumnInfo
  {
    var present := NonMissing(cells);
    var xs := Numbers(cells);
    var stats :=
      if !NumericDtype(column.kind) then (Dash, Dash, Dash)
      else if |xs| == 0 then (NaN, NaN, NaN)
      else (Value(Mean(xs)), Value(Min(xs)), Value(Max(xs)));
    ColumnInfo(column.name, column.kind, |present|, MissingCount(cells), DistinctCount(present),
               stats.0, stats.1, stats.2)
  }

  /** The information line of column `j`. */
  function InfoOf(t: Table, j: nat): ColumnInfo
    requires WellFormed(t) && j < |t.columns|
  {
    LineOf(t.columns[j], ColumnCells(t.rows, j))
  }

  /** What an information line reports about its column. */
  lemma InfoOfProperties(t: Table, j: nat)
    requires WellFormed(t) && j < |t.columns|
    ensures var r := InfoOf(t, j);
      && r.column == t.columns[j].name && r.kind == t.columns[j].kind
      && r.nonNull + r.nulls == |t.rows|
      && r.nulls == ColumnMissing(t, j)
      && r.unique <= r.nonNull
      && (!NumericDtype(t.columns[j].kind) <==> r.mean == r.min == r.max == Dash)
      && (NumericDtype(t.columns[j].kind) ==> (r.nonNull == 0 <==> r.mean == r.min == r.max == NaN))
      && (r.mean.Value? ==> r.min.Value? && r.max.Value? && r.min.v <= r.mean.v <= r.max.v)
      && (t.columns[j].kind == Boolean ==>
            r.nulls == 0 && (r.mean.Value? ==> 0.0 <= r.min.v && r.max.v <= 1.0))
  {
    var cells := ColumnCells(t.rows, j);
    var xs := Numbers(cells);
    MissingPlusPresent(cells);
    DistinctBound(NonMissing(cells));
    if NumericDtype(t.columns[j].kind) {
      ColumnCellsFit(t, j);
      assert forall c :: c in cells ==> Fits(Numeric, c);
      NumbersOfNumericColumn(cells);
      if |xs| > 0 {
        MeanWithin(xs);
        if t.columns[j].kind == Boolean {
          BooleanNumbers(cells);
        }
      }
    }
  }

  /** The numbers of a boolean column are 0s and 1s. */
  lemma {:induction false} BooleanNumbers(cells: seq<Cell>)
    requires forall c :: c in cells ==> Fits(Boolean, c)
    ensures forall k :: 0 <= k < |Numbers(cells)| ==> 0.0 <= Numbers(cells)[k] <= 1.0
    ensures MissingCount(cells) == 0
    decreases |cells|
  {
    if cells != [] {
      var init := cells[..|cells| - 1];
      assert forall c :: c in init ==> c in cells;
      BooleanNumbers(init);
      assert cells[|cells| - 1] in cells;
    }
  }

  /** `get_column_info`: one information line per column, in column order. */
  method GetColumnInfo(t: Table) returns (info: seq<ColumnInfo>)
    requires WellFormed(t)
    ensures |info| == |t.columns|
    ensures forall j :: 0 <= j < |t.columns| ==> info[j] == InfoOf(t, j)
  {
    info := [];
    for j := 0 to |t.columns|
      invariant |info| == j
      invariant forall k :: 0 <= k < j ==> info[k] == InfoOf(t, k)
    {
      var line := InfoOf(t, j);
      ghost var before := info;
      info := info + [line];
      assert forall k :: 0 <= k < j ==> info[k] == before[k];
      assert info[j] == line;
    }
  }

  // --------------------------------------------------- auto_detect_issues

  datatype Severity = Low | Medium | High

  datatype IssueKind = Duplicates | MissingValues | Outliers | TextInconsistency | WrongTypes

  datatype Suggestion = SuggestNumeric | SuggestDatetime

  datatype Details =
    | NoDetails
    | OutlierCounts(counts: seq<(string, nat)>)
    | ColumnNames(names: seq<string>)
    | TypeSuggestions(suggestions: seq<(string, Suggestion)>)

  /** The cleaning steps an issue points to, which are also the keys of the
      recommendations dict: `'remove_duplicates'`, `'handle_missing'`,
      `'missing_strategy'`, `'remove_outliers'`, `'standardize_text'` and
      `'convert_types'`. */
  datatype Action = RemoveDuplicates | HandleMissing | MissingStrategyKey | RemoveOutliers | StandardizeText | ConvertTypes

  /** An issue record; its free-text message and recommendation are left out. */
  datatype Issue = Issue(kind: IssueKind, severity: Severity, count: nat, action: Action, details: Details)

  /** A value of the recommendations dict: `True`, or a strategy. */
  datatype Advice = Enabled | Strategy(strategy: MissingStrategy)

  /** `df.duplicated().sum()`: the rows equal to some earlier row. */
  function DuplicateCount(rows: seq<Row>): nat
  {
    if rows == [] then 0
    else
      var init := rows[..|rows| - 1];
      DuplicateCount(init) + (if rows[|rows| - 1] in init then 1 else 0)
  }

  lemma {:induction false} DuplicateCountBound(rows: seq<Row>)
    ensures DuplicateCount(rows) <= |rows|
    ensures rows != [] ==> DuplicateCount(rows) < |rows|
    decreases |rows|
  {
    if rows != [] {
      DuplicateCountBound(rows[..|rows| - 1]);
    }
  }

  /** `df.duplicated().sum()` on the table: pandas' `duplicated` returns an
      empty result for a table without columns (`df.empty`), so such a table
      has no duplicate even when it has several rows. */
  function Duplicated(t: Table): (d: nat)
    ensures |t.columns| == 0 ==> d == 0
    ensures |t.columns| > 0 ==> d == DuplicateCount(t.rows)
  {
    if |t.columns| == 0 then 0 else DuplicateCount(t.rows)
  }

  /** The duplicates check: an issue when some row repeats an earlier one,
      high when the repeats are more than 5% of the rows. */
  function DuplicateIssue(t: Table): (r: Option<Issue>)
    ensures r.Some? <==> |t.columns| > 0 && DuplicateCount(t.rows) > 0
    ensures r.Some? ==> (r.value.kind == Duplicates && r.value.count == DuplicateCount(t.rows)
      && r.value.action == RemoveDuplicates
      && (r.value.severity == High <==> 20 * DuplicateCount(t.rows) > |t.rows|)
      && r.value.severity != Low)
  {
    var d := Duplicated(t);
    if d > 0 then
      Some(Issue(Duplicates, if (d as real) > (|t.rows| as real) * 0.05 then High else Medium,
                 d, RemoveDuplicates, NoDetails))
    else None
  }

  /** The missing cells of the first `n` columns. */
  function MissingUpTo(t: Table, n: nat): nat
    requires WellFormed(t) && n <= |t.columns|
  {
    if n == 0 then 0 else MissingUpTo(t, n - 1) + ColumnMissing(t, n - 1)
  }

  /** `df.isnull().sum().sum()`. */
  function TotalMissing(t: Table): nat
    requires WellFormed(t)
  {
    MissingUpTo(t, |t.columns|)
  }

  lemma {:induction false} NoRowsNoMissing(t: Table, n: nat)
    requires WellFormed(t) && n <= |t.columns| && |t.rows| == 0
    ensures MissingUpTo(t, n) == 0
  {
    if n > 0 {
      NoRowsNoMissing(t, n - 1);
      ColumnMissingBound(t, n - 1);
    }
  }

  /** Only a table with rows and columns has missing cells. */
  lemma TotalMissingNeedsCells(t: Table)
    requires WellFormed(t) && TotalMissing(t) > 0
    ensures |t.rows| > 0 && |t.columns| > 0
  {
    if |t.rows| == 0 {
      NoRowsNoMissing(t, |t.columns|);
    }
  }

  function MissingPercentage(t: Table): real
    requires WellFormed(t) && |t.rows| > 0 && |t.columns| > 0
  {
    Percent(TotalMissing(t), |t.rows| * |t.columns|)
  }

  predicate HasNumeric(t: Table)
  {
    exists j :: 0 <= j < |t.columns| && t.columns[j].kind == Numeric
  }

  /** The missing-values check: an issue when some cell is missing, high
      above 10% of all cells, medium above 5%, low otherwise. */
  function MissingIssue(t: Table): (r: Option<Issue>)
    requires WellFormed(t)
    ensures r.Some? <==> TotalMissing(t) > 0
    ensures r.Some? ==> (|t.rows| > 0 && |t.columns| > 0
      && r.value.kind == MissingValues && r.value.count == TotalMissing(t)
      && r.value.action == HandleMissing
      && (r.value.severity == High <==> MissingPercentage(t) > 10.0)
      && (r.value.severity == Medium <==> 5.0 < MissingPercentage(t) <= 10.0)
      && (r.value.severity == Low <==> MissingPercentage(t) <= 5.0))
  {
    var total := TotalMissing(t);
    if total > 0 then
      TotalMissingNeedsCells(t);
      var pct := MissingPercentage(t);
      Some(Issue(MissingValues, if pct > 10.0 then High else if pct > 5.0 then Medium else Low,
                 total, HandleMissing, NoDetails))
    else None
  }

  /** The cells of a column whose z-score exceeds `thr`. */
  function CountAbove(cells: seq<Cell>, xs: seq<real>, thr: real): nat
  {
    if cells == [] then 0
    else CountAbove(cells[..|cells| - 1], xs, thr) + (if ZAbove(cells[|cells| - 1], xs, thr) then 1 else 0)
  }

  /** `(z_scores > 3).sum()` for column `j`. */
  function OutlierCount(t: Table, j: nat): nat
    requires WellFormed(t) && j < |t.columns|
  {
    var cells := ColumnCells(t.rows, j);
    CountAbove(cells, Numbers(cells), 3.0)
  }

  /** Column `j` is numeric and has a value, so its z-scores are taken. */
  predicate OutlierChecked(t: Table, j: nat)
    requires WellFormed(t) && j < |t.columns|
  {
    t.columns[j].kind == Numeric && |NonMissing(ColumnCells(t.rows, j))| > 0
  }

  /** The first `n` columns whose entry in `found` holds a finding, each
      named with its finding, in column order: what the per-column loops of
      `auto_detect_issues` collect. */
  function Listed<T>(columns: seq<Column>, found: seq<Option<T>>, n: nat): seq<(string, T)>
    requires n <= |columns| && n <= |found|
  {
    if n == 0 then []
    else
      var init := Listed(columns, found, n - 1);
      if found[n - 1].Some? then init + [(columns[n - 1].name, found[n - 1].value)] else init
  }

  /** What the outliers loop records for column `j`: its count, when its
      z-scores are taken and some exceed 3. */
  function OutlierFinding(t: Table, j: nat): Option<nat>
    requires WellFormed(t) && j < |t.columns|
  {
    if OutlierChecked(t, j) && OutlierCount(t, j) > 0 then Some(OutlierCount(t, j)) else None
  }

  /** What the outliers loop records for each column. */
  function OutlierFindings(t: Table): (r: seq<Option<nat>>)
    requires WellFormed(t)
    ensures |r| == |t.columns|
  {
    seq(|t.columns|, j requires 0 <= j < |t.columns| => OutlierFinding(t, j))
  }

  /** `outlier_cols` after the first `n` columns. */
  function OutlierColumns(t: Table, n: nat): seq<(string, nat)>
    requires WellFormed(t) && n <= |t.columns|
  {
    Listed(t.columns, OutlierFindings(t), n)
  }

  function SumCounts(es: seq<(string, nat)>): nat
  {
    if es == [] then 0 else SumCounts(es[..|es| - 1]) + es[|es| - 1].1
  }

  /** The outliers check: a medium issue when some numeric column has a cell
      with a z-score above 3; its count is the number of such cells. */
  function OutlierIssue(t: Table): Option<Issue>
    requires WellFormed(t)
  {
    var cols := OutlierColumns(t, |t.columns|);
    if cols != [] then Some(Issue(Outliers, Medium, SumCounts(cols), RemoveOutliers, OutlierCounts(cols)))
    else None
  }

  /** `df[col].dropna().head(100)`. */
  function Sample(cells: seq<Cell>): (r: seq<Cell>)
    ensures |r| <= 100
  {
    var present := NonMissing(cells);
    if |present| <= 100 then present else present[..100]
  }

  /** Some value differs from its stripped form. */
  predicate HasPadding(ss: seq<string>)
  {
    exists k :: 0 <= k < |ss| && Trim(ss[k]) != ss[k]
  }

  /** Some value differs from its lower-case form and some value differs
      from its upper-case form. */
  predicate HasMixedCase(ss: seq<string>)
  {
    (exists k :: 0 <= k < |ss| && Lower(ss[k]) != ss[k])
    && (exists k :: 0 <= k < |ss| && Upper(ss[k]) != ss[k])
  }

  /** Some sampled value is not a string: `.str.strip()`, `.str.lower()`
      and `.str.upper()` turn it into NaN, which differs from the value, so
      it counts both as padded and as mixing cases. */
  predicate HasNonString(sample: seq<Cell>)
  {
    exists k :: 0 <= k < |sample| && !sample[k].Str?
  }

  /** The text check raises `AttributeError` on column `j`: it is an object
      column whose first 100 values hold no string, which the `.str`
      accessor refuses. */
  predicate TextRaises(t: Table, j: nat)
    requires WellFormed(t) && j < |t.columns|
  {
    t.columns[j].kind == Object && StrAccessorRaises(Sample(ColumnCells(t.rows, j)))
  }

  /** The text check raises on one of the first `n` columns. */
  predicate TextRaisesBefore(t: Table, n: nat)
    requires WellFormed(t) && n <= |t.columns|
  {
    exists j :: 0 <= j < n && TextRaises(t, j)
  }

  /** Column `j` is an object column whose sample the `.str` accessor takes
      and which is padded, mixes cases, or holds a value that is not a
      string. */
  predicate TextFlagged(t: Table, j: nat)
    requires WellFormed(t) && j < |t.columns|
  {
    var sample := Sample(ColumnCells(t.rows, j));
    t.columns[j].kind == Object && |sample| > 0 && !StrAccessorRaises(sample)
    && (HasNonString(sample) || HasPadding(Strings(sample)) || HasMixedCase(Strings(sample)))
  }

  /** `text_issues` after the first `n` columns. */
  function TextColumns(t: Table, n: nat): (r: seq<string>)
    requires WellFormed(t) && n <= |t.columns|
  {
    if n == 0 then []
    else
      var init := TextColumns(t, n - 1);
      if TextFlagged(t, n - 1) then init + [t.columns[n - 1].name] else init
  }

  /** The text check: a low issue naming the flagged text columns. */
  function TextIssue(t: Table): Option<Issue>
    requires WellFormed(t)
  {
    var names := TextColumns(t, |t.columns|);
    if names != [] then Some(Issue(TextInconsistency, Low, |names|, StandardizeText, ColumnNames(names)))
    else None
  }

  /** `pd.to_numeric` succeeds on the values. */
  predicate AllParseNumeric(p: Parsers, values: seq<Cell>)
  {
    forall k :: 0 <= k < |values| ==> NumberOf(p, values[k]).Some?
  }

  /** `pd.to_datetime` succeeds on the values. */
  predicate AllParseDatetime(p: Parsers, values: seq<Cell>)
  {
    forall k :: 0 <= k < |values| ==> StampOf(p, values[k]).Some?
  }

  /** What the wrong-types check records for an object column with sampled
      values: numeric when every value reads as a number, else datetime
      when every value reads as a date, else nothing. */
  function SuggestionFor(p: Parsers, values: seq<Cell>): Option<Suggestion>
  {
    if AllParseNumeric(p, values) then Some(SuggestNumeric)
    else if AllParseDatetime(p, values) then Some(SuggestDatetime)
    else None
  }

  /** What the wrong-types check records for a column of the given kind
      and cells: only object columns with a value are tried. */
  function ColumnSuggestion(p: Parsers, kind: Kind, cells: seq<Cell>): Option<Suggestion>
  {
    var sample := Sample(cells);
    if kind == Object && |sample| > 0 then SuggestionFor(p, sample) else None
  }

  /** What the wrong-types check records for column `j`. */
  function TypeSuggestionOf(t: Table, p: Parsers, j: nat): Option<Suggestion>
    requires WellFormed(t) && j < |t.columns|
  {
    ColumnSuggestion(p, t.columns[j].kind, ColumnCells(t.rows, j))
  }

  /** What the wrong-types check records for each column. */
  function Suggestions(t: Table, p: Parsers): (r: seq<Option<Suggestion>>)
    requires WellFormed(t)
    ensures |r| == |t.columns|
  {
    seq(|t.columns|, j requires 0 <= j < |t.columns| => TypeSuggestionOf(t, p, j))
  }

  /** `type_issues` after the first `n` columns. */
  function TypeColumns(t: Table, p: Parsers, n: nat): seq<(string, Suggestion)>
    requires WellFormed(t) && n <= |t.columns|
  {
    Listed(t.columns, Suggestions(t, p), n)
  }

  /** The wrong-types check: a medium issue listing the suggestions. */
  function TypeIssue(t: Table, p: Parsers): Option<Issue>
    requires WellFormed(t)
  {
    var found := TypeColumns(t, p, |t.columns|);
    if found != [] then Some(Issue(WrongTypes, Medium, |found|, ConvertTypes, TypeSuggestions(found)))
    else None
  }

  function AsSeq(o: Option<Issue>): seq<Issue>
  {
    if o.Some? then [o.value] else []
  }

  /** What the five checks of `auto_detect_issues` found, one optional
      issue per check. */
  datatype Findings = Findings(
    duplicates: Option<Issue>, missing: Option<Issue>, outliers: Option<Issue>,
    text: Option<Issue>, types: Option<Issue>)

  function FindingsOf(t: Table, p: Parsers): Findings
    requires WellFormed(t)
  {
    Findings(DuplicateIssue(t), MissingIssue(t), OutlierIssue(t), TextIssue(t), TypeIssue(t, p))
  }

  /** The issue list: the findings in the order of the checks. */
  function IssueList(f: Findings): seq<Issue>
  {
    AsSeq(f.duplicates) + AsSeq(f.missing) + AsSeq(f.outliers) + AsSeq(f.text) + AsSeq(f.types)
  }

  function AddIf(m: map<Action, Advice>, cond: bool, key: Action, advice: Advice): map<Action, Advice>
  {
    if cond then m[key := advice] else m
  }

  /** The recommendations dict: one key per finding, and the strategy for
      missing values. */
  function Advise(f: Findings, strategy: MissingStrategy): map<Action, Advice>
  {
    var m1 := AddIf(map[], f.duplicates.Some?, RemoveDuplicates, Enabled);
    var m2 := AddIf(AddIf(m1, f.missing.Some?, HandleMissing, Enabled), f.missing.Some?,
                    MissingStrategyKey, Strategy(strategy));
    var m3 := AddIf(m2, f.outliers.Some?, RemoveOutliers, Enabled);
    var m4 := AddIf(m3, f.text.Some?, StandardizeText, Enabled);
    AddIf(m4, f.types.Some?, ConvertTypes, Enabled)
  }

  /** The strategy recommended for missing values. */
  function MissingAdvice(t: Table): MissingStrategy
  {
    if HasNumeric(t) then FillMedian else DropRows
  }

  /** The issues `auto_detect_issues` returns. */
  function Issues(t: Table, p: Parsers): seq<Issue>
    requires WellFormed(t)
  {
    IssueList(FindingsOf(t, p))
  }

  /** The recommendations `auto_detect_issues` returns. */
  function Recommendations(t: Table, p: Parsers): map<Action, Advice>
    requires WellFormed(t)
  {
    Advise(FindingsOf(t, p), MissingAdvice(t))
  }

  /** The outliers loop of `auto_detect_issues`: the z-scores of every
      numeric column that has a value. */
  method FindOutlierColumns(t: Table) returns (outlierCols: seq<(string, nat)>)
    requires WellFormed(t)
    ensures outlierCols == OutlierColumns(t, |t.columns|)
  {
    outlierCols := [];
    for j := 0 to |t.columns|
      invariant outlierCols == OutlierColumns(t, j)
    {
      assert OutlierFindings(t)[j] == OutlierFinding(t, j);
      if t.columns[j].kind == Numeric && |NonMissing(ColumnCells(t.rows, j))| > 0 {
        var outliers := OutlierCount(t, j);
        if outliers > 0 {
          outlierCols := outlierCols + [(t.columns[j].name, outliers)];
        }
      }
    }
  }

  /** One step of the text-consistency loop: whether the `.str` accessor
      refuses the first 100 values of object column `j`, and otherwise
      whether they are padded or mix cases. */
  method IsInconsistentText(t: Table, j: nat) returns (flagged: bool, raised: bool)
    requires WellFormed(t) && j < |t.columns|
    ensures raised == TextRaises(t, j)
    ensures flagged == TextFlagged(t, j)
  {
    flagged, raised := false, false;
    if t.columns[j].kind == Object {
      var sample := Sample(ColumnCells(t.rows, j));
      if |sample| > 0 {
        if StrAccessorRaises(sample) {
          raised := true;
        } else {
          var values := Strings(sample);
          var hasSpaces := HasNonString(sample) || HasPadding(values);
          var hasMixedCase := HasNonString(sample) || HasMixedCase(values);
          flagged := hasSpaces || hasMixedCase;
        }
      }
    }
  }

  /** One pass of the text-consistency loop extends what it has seen by
      column `j`. */
  lemma TextStep(t: Table, j: nat)
    requires WellFormed(t) && j < |t.columns|
    ensures TextRaisesBefore(t, j + 1) <==> TextRaisesBefore(t, j) || TextRaises(t, j)
    ensures TextColumns(t, j + 1) == if TextFlagged(t, j) then TextColumns(t, j) + [t.columns[j].name] else TextColumns(t, j)
  {
  }

  /** The text-consistency loop of `auto_detect_issues`: the first 100
      values of every object column; it stops with `AttributeError` at the
      first column the `.str` accessor refuses. */
  method FindTextColumns(t: Table) returns (textIssues: seq<string>, raised: bool)
    requires WellFormed(t)
    ensures raised <==> TextRaisesBefore(t, |t.columns|)
    ensures !raised ==> textIssues == TextColumns(t, |t.columns|)
  {
    textIssues := [];
    for j := 0 to |t.columns|
      invariant !TextRaisesBefore(t, j)
      invariant textIssues == TextColumns(t, j)
    {
      var flagged, raises := IsInconsistentText(t, j);
      TextStep(t, j);
      if raises {
        assert TextRaises(t, j);
        return [], true;
      }
      if flagged {
        textIssues := textIssues + [t.columns[j].name];
      }
    }
    raised := false;
  }

  /** One step of the data-type loop: the first 100 values of column `j`,
      when it is an object column, tried as numbers and then as dates. */
  method SuggestType(t: Table, p: Parsers, j: nat) returns (suggestion: Option<Suggestion>)
    requires WellFormed(t) && j < |t.columns|
    ensures suggestion == TypeSuggestionOf(t, p, j)
  {
    suggestion := None;
    if t.columns[j].kind == Object {
      var sample := Sample(ColumnCells(t.rows, j));
      if |sample| > 0 {
        suggestion := SuggestionFor(p, sample);
      }
    }
  }

  /** The data-type loop of `auto_detect_issues`: the first 100 values of
      every object column, tried as numbers and then as dates. */
  method FindTypeColumns(t: Table, p: Parsers) returns (typeIssues: seq<(string, Suggestion)>)
    requires WellFormed(t)
    ensures typeIssues == TypeColumns(t, p, |t.columns|)
  {
    typeIssues := [];
    for j := 0 to |t.columns|
      invariant typeIssues == TypeColumns(t, p, j)
    {
      var suggestion := SuggestType(t, p, j);
      if suggestion.Some? {
        typeIssues := typeIssues + [(t.columns[j].name, suggestion.value)];
      }
    }
  }

  method CheckDuplicates(t: Table) returns (issue: Option<Issue>)
    ensures issue == DuplicateIssue(t)
  {
    issue := None;
    var duplicates := Duplicated(t);
    if duplicates > 0 {
      var severity := if (duplicates as real) > (|t.rows| as real) * 0.05 then High else Medium;
      issue := Some(Issue(Duplicates, severity, duplicates, RemoveDuplicates, NoDetails));
    }
  }

  method CheckMissing(t: Table) returns (issue: Option<Issue>)
    requires WellFormed(t)
    ensures issue == MissingIssue(t)
  {
    issue := None;
    var missingTotal := TotalMissing(t);
    if missingTotal > 0 {
      TotalMissingNeedsCells(t);
      var missingPct := MissingPercentage(t);
      var severity := if missingPct > 10.0 then High else if missingPct > 5.0 then Medium else Low;
      issue := Some(Issue(MissingValues, severity, missingTotal, HandleMissing, NoDetails));
    }
  }

  method CheckOutliers(t: Table) returns (issue: Option<Issue>)
    requires WellFormed(t)
    ensures issue == OutlierIssue(t)
  {
    var outlierCols := FindOutlierColumns(t);
    issue := None;
    if outlierCols != [] {
      issue := Some(Issue(Outliers, Medium, SumCounts(outlierCols), RemoveOutliers, OutlierCounts(outlierCols)));
    }
  }

  method CheckText(t: Table) returns (issue: Option<Issue>, raised: bool)
    requires WellFormed(t)
    ensures raised <==> TextRaisesBefore(t, |t.columns|)
    ensures !raised ==> issue == TextIssue(t)
  {
    var textIssues;
    textIssues, raised := FindTextColumns(t);
    issue := None;
    if !raised && textIssues != [] {
      issue := Some(Issue(TextInconsistency, Low, |textIssues|, StandardizeText, ColumnNames(textIssues)));
    }
  }

  method CheckTypes(t: Table, p: Parsers) returns (issue: Option<Issue>)
    requires WellFormed(t)
    ensures issue == TypeIssue(t, p)
  {
    var typeIssues := FindTypeColumns(t, p);
    issue := None;
    if typeIssues != [] {
      issue := Some(Issue(WrongTypes, Medium, |typeIssues|, ConvertTypes, TypeSuggestions(typeIssues)));
    }
  }

  /** Appends a detected issue and switches on its cleaning step. */
  method Record(issues: seq<Issue>, recommendations: map<Action, Advice>, issue: Option<Issue>, step: Action)
    returns (issues': seq<Issue>, recommendations': map<Action, Advice>)
    ensures issues' == issues + AsSeq(issue)
    ensures recommendations' == AddIf(recommendations, issue.Some?, step, Enabled)
  {
    issues', recommendations' := issues, recommendations;
    if issue.Some? {
      issues' := issues' + [issue.value];
      recommendations' := recommendations'[step := Enabled];
    }
  }

  /** What `auto_detect_issues` returns: the issue list and the
      recommendations, or the `AttributeError` its text check raises. */
  datatype Detection = Detected(issues: seq<Issue>, recommendations: map<Action, Advice>) | StrAccessorError

  /** `auto_detect_issues`: runs the five checks in order, accumulating the
      issue list and the recommendations; the text check raises when the
      `.str` accessor refuses a column. */
  method DetectIssues(t: Table, p: Parsers) returns (r: Detection)
    requires WellFormed(t)
    ensures r.StrAccessorError? <==> TextRaisesBefore(t, |t.columns|)
    ensures r.Detected? ==> r.issues == Issues(t, p) && r.recommendations == Recommendations(t, p)
  {
    var issues: seq<Issue>, recommendations: map<Action, Advice> := [], map[];

    var duplicateIssue := CheckDuplicates(t);
    issues, recommendations := Record(issues, recommendations, duplicateIssue, RemoveDuplicates);
    assert issues == AsSeq(duplicateIssue);

    var missingIssue := CheckMissing(t);
    issues, recommendations := Record(issues, recommendations, missingIssue, HandleMissing);
    if missingIssue.Some? {
      if HasNumeric(t) {
        recommendations := recommendations[MissingStrategyKey := Strategy(FillMedian)];
      } else {
        recommendations := recommendations[MissingStrategyKey := Strategy(DropRows)];
      }
    }

    var outlierIssue := CheckOutliers(t);
    issues, recommendations := Record(issues, recommendations, outlierIssue, RemoveOutliers);

    var textIssue, raised := CheckText(t);
    if raised {
      return StrAccessorError;
    }
    issues, recommendations := Record(issues, recommendations, textIssue, StandardizeText);

    var typeIssue := CheckTypes(t, p);
    issues, recommendations := Record(issues, recommendations, typeIssue, ConvertTypes);
    r := Detected(issues, recommendations);
  }

  // ------------------------------------------------ properties of the checks

  /** A column appears among the outlier findings, with its count, exactly
      when it is a numeric column with a value and some cell's z-score
      exceeds 3. */
  lemma OutlierColumnsMembers(t: Table, n: nat)
    requires WellFormed(t) && n <= |t.columns|
    ensures forall e :: e in OutlierColumns(t, n) <==>
      exists j :: 0 <= j < n && OutlierChecked(t, j) && OutlierCount(t, j) > 0
                  && e == (t.columns[j].name, OutlierCount(t, j))
  {
    var found := OutlierFindings(t);
    FoundColumnsListed(t.columns, found, n);
    ListedColumnsFound(t.columns, found, n);
    assert forall j :: 0 <= j < n ==> found[j] == OutlierFinding(t, j);
  }

  /** A column is named by the text check exactly when it is a text column
      whose first 100 values are padded or mix cases. */
  lemma TextColumnsMembers(t: Table, n: nat)
    requires WellFormed(t) && n <= |t.columns|
    ensures forall name :: name in TextColumns(t, n) <==>
      exists j :: 0 <= j < n && TextFlagged(t, j) && name == t.columns[j].name
  {
    TextColumnsSelected(t, n);
    SelectMembers(FlaggedAt(t), NameAt(t), n);
    forall name ensures name in TextColumns(t, n) <==>
      exists j :: 0 <= j < n && TextFlagged(t, j) && name == t.columns[j].name
    {
      if name in TextColumns(t, n) {
        var j :| 0 <= j < n && FlaggedAt(t)(j) && name == NameAt(t)(j);
        assert TextFlagged(t, j) && name == t.columns[j].name;
      }
      if exists j :: 0 <= j < n && TextFlagged(t, j) && name == t.columns[j].name {
        var j :| 0 <= j < n && TextFlagged(t, j) && name == t.columns[j].name;
        assert FlaggedAt(t)(j) && name == NameAt(t)(j);
      }
    }
  }

  /** Whether column `j` is flagged, as a function of the index. */
  function FlaggedAt(t: Table): nat -> bool
  {
    (j: nat) => WellFormed(t) && j < |t.columns| && TextFlagged(t, j)
  }

  /** The name of column `j`, as a function of the index. */
  function NameAt(t: Table): nat -> string
  {
    (j: nat) => if j < |t.columns| then t.columns[j].name else ""
  }

  /** The text check names the flagged columns in column order. */
  lemma {:induction false} TextColumnsSelected(t: Table, n: nat)
    requires WellFormed(t) && n <= |t.columns|
    ensures TextColumns(t, n) == Select(FlaggedAt(t), NameAt(t), n)
  {
    if n > 0 {
      TextColumnsSelected(t, n - 1);
      assert FlaggedAt(t)(n - 1) == TextFlagged(t, n - 1);
      assert NameAt(t)(n - 1) == t.columns[n - 1].name;
    }
  }

  /** A column appears among the type suggestions, with its suggestion,
      exactly when it is an object column whose first 100 values all read
      as numbers or all read as dates. */
  lemma TypeColumnsMembers(t: Table, p: Parsers, n: nat)
    requires WellFormed(t) && n <= |t.columns|
    ensures forall e :: e in TypeColumns(t, p, n) <==>
      exists j {:trigger TypeSuggestionOf(t, p, j)} :: 0 <= j < n && TypeSuggestionOf(t, p, j).Some?
                  && e == (t.columns[j].name, TypeSuggestionOf(t, p, j).value)
  {
    var found := Suggestions(t, p);
    FoundColumnsListed(t.columns, found, n);
    ListedColumnsFound(t.columns, found, n);
    assert forall j :: 0 <= j < n ==> found[j] == TypeSuggestionOf(t, p, j);
  }

  /** Every column with a finding is listed with it. */
  lemma {:induction false} FoundColumnsListed<T>(columns: seq<Column>, found: seq<Option<T>>, n: nat)
    requires n <= |columns| && n <= |found|
    ensures forall j :: 0 <= j < n && found[j].Some? ==> (columns[j].name, found[j].value) in Listed(columns, found, n)
  {
    if n > 0 {
      FoundColumnsListed(columns, found, n - 1);
      var init := Listed(columns, found, n - 1);
      if found[n - 1].Some? {
        var last := (columns[n - 1].name, found[n - 1].value);
        assert Listed(columns, found, n) == init + [last];
        assert forall e :: e in init ==> e in init + [last];
        assert last in init + [last];
      }
    }
  }

  /** Every listed entry is the finding of some column. */
  lemma {:induction false} ListedColumnsFound<T>(columns: seq<Column>, found: seq<Option<T>>, n: nat)
    requires n <= |columns| && n <= |found|
    ensures forall e :: e in Listed(columns, found, n) ==>
      exists j :: 0 <= j < n && found[j].Some? && e == (columns[j].name, found[j].value)
  {
    if n > 0 {
      ListedColumnsFound(columns, found, n - 1);
      var init := Listed(columns, found, n - 1);
      if found[n - 1].Some? {
        var last := (columns[n - 1].name, found[n - 1].value);
        assert Listed(columns, found, n) == init + [last];
        forall e | e in init + [last]
          ensures exists j :: 0 <= j < n && found[j].Some? && e == (columns[j].name, found[j].value)
        {
          if e !in init {
            assert e == last;
          }
        }
      }
    }
  }

  /** The names of the first `n` columns. */
  function NamesBelow(columns: seq<Column>, n: nat): set<string>
    requires n <= |columns|
  {
    set j | 0 <= j < n :: columns[j].name
  }

  /** With distinct column names, every listed entry names one of the
      first `n` columns and no column is named twice. */
  lemma {:induction false} ListedOnePerColumn<T>(columns: seq<Column>, found: seq<Option<T>>, n: nat)
    requires UniqueNames(columns) && n <= |columns| && n <= |found|
    ensures forall a :: 0 <= a < |Listed(columns, found, n)| ==> Listed(columns, found, n)[a].0 in NamesBelow(columns, n)
    ensures forall a, b :: 0 <= a < b < |Listed(columns, found, n)| ==>
      Listed(columns, found, n)[a].0 != Listed(columns, found, n)[b].0
  {
    if n > 0 {
      ListedOnePerColumn(columns, found, n - 1);
      var init := Listed(columns, found, n - 1);
      var name := columns[n - 1].name;
      assert NamesBelow(columns, n) == NamesBelow(columns, n - 1) + {name};
      assert name !in NamesBelow(columns, n - 1);
      if found[n - 1].Some? {
        var r := init + [(name, found[n - 1].value)];
        assert Listed(columns, found, n) == r;
        forall a | 0 <= a < |r|
          ensures r[a].0 in NamesBelow(columns, n)
        {
          if a < |init| {
            assert r[a] == init[a];
          }
        }
        forall a, b | 0 <= a < b < |r|
          ensures r[a].0 != r[b].0
        {
          assert r[a] == init[a];
          if b < |init| {
            assert r[b] == init[b];
          }
        }
      }
    }
  }

  /** Every type suggestion names one of the first `n` columns, and no
      column is named twice, so no column is suggested both as numeric and
      as datetime. */
  lemma TypeColumnsOnePerColumn(t: Table, p: Parsers, n: nat)
    requires WellFormed(t) && n <= |t.columns|
    ensures forall a :: 0 <= a < |TypeColumns(t, p, n)| ==> TypeColumns(t, p, n)[a].0 in NamesBelow(t.columns, n)
    ensures forall a, b :: 0 <= a < b < |TypeColumns(t, p, n)| ==>
      TypeColumns(t, p, n)[a].0 != TypeColumns(t, p, n)[b].0
  {
    ListedOnePerColumn(t.columns, Suggestions(t, p), n);
  }

  function Rank(k: IssueKind): nat
  {
    match k
    case Duplicates => 0
    case MissingValues => 1
    case Outliers => 2
    case TextInconsistency => 3
    case WrongTypes => 4
  }

  /** The cleaning step each kind of issue points to. */
  function StepFor(k: IssueKind): Action
  {
    match k
    case Duplicates => RemoveDuplicates
    case MissingValues => HandleMissing
    case Outliers => RemoveOutliers
    case TextInconsistency => StandardizeText
    case WrongTypes => ConvertTypes
  }

  /** Every finding has the kind of its check and points to that kind's
      cleaning step. */
  predicate Consistent(f: Findings)
  {
    (f.duplicates.Some? ==> f.duplicates.value.kind == Duplicates && f.duplicates.value.action == RemoveDuplicates)
    && (f.missing.Some? ==> f.missing.value.kind == MissingValues && f.missing.value.action == HandleMissing)
    && (f.outliers.Some? ==> f.outliers.value.kind == Outliers && f.outliers.value.action == RemoveOutliers)
    && (f.text.Some? ==> f.text.value.kind == TextInconsistency && f.text.value.action == StandardizeText)
    && (f.types.Some? ==> f.types.value.kind == WrongTypes && f.types.value.action == ConvertTypes)
  }

  lemma FindingsConsistent(t: Table, p: Parsers)
    requires WellFormed(t)
    ensures Consistent(FindingsOf(t, p))
  {
  }

  /** Consistent findings give one issue per check at most, in check order,
      each pointing to its kind's step. */
  lemma IssueListOrdered(f: Findings)
    requires Consistent(f)
    ensures var issues := IssueList(f);
      (forall a, b :: 0 <= a < b < |issues| ==> Rank(issues[a].kind) < Rank(issues[b].kind))
      && (forall i :: 0 <= i < |issues| ==> issues[i].action == StepFor(issues[i].kind))
  {
  }

  /** The step a check's finding switches on, when it found something. */
  predicate FoundStep(f: Findings, a: Action)
  {
    (f.duplicates.Some? && a == RemoveDuplicates)
    || (f.missing.Some? && a == HandleMissing)
    || (f.outliers.Some? && a == RemoveOutliers)
    || (f.text.Some? && a == StandardizeText)
    || (f.types.Some? && a == ConvertTypes)
  }

  /** The issue list holds exactly the findings of the checks. */
  lemma IssueListMembers(f: Findings)
    ensures forall x :: x in IssueList(f) <==>
      f.duplicates == Some(x) || f.missing == Some(x) || f.outliers == Some(x)
      || f.text == Some(x) || f.types == Some(x)
  {
  }

  /** The listed issues of consistent findings point to exactly the steps of
      the checks that found something. */
  lemma IssueListActions(f: Findings)
    requires Consistent(f)
    ensures var issues := IssueList(f);
      forall a :: (exists i :: 0 <= i < |issues| && issues[i].action == a) <==> FoundStep(f, a)
  {
    IssueListMembers(f);
    ListedActionsFound(f);
    FoundActionsListed(f);
  }

  lemma ListedActionsFound(f: Findings)
    requires Consistent(f)
    requires forall x :: x in IssueList(f) <==>
      f.duplicates == Some(x) || f.missing == Some(x) || f.outliers == Some(x)
      || f.text == Some(x) || f.types == Some(x)
    ensures forall i :: 0 <= i < |IssueList(f)| ==> FoundStep(f, IssueList(f)[i].action)
  {
    var issues := IssueList(f);
    forall i | 0 <= i < |issues| ensures FoundStep(f, issues[i].action) {
      assert issues[i] in issues;
    }
  }

  lemma FoundActionsListed(f: Findings)
    requires Consistent(f)
    requires forall x :: x in IssueList(f) <==>
      f.duplicates == Some(x) || f.missing == Some(x) || f.outliers == Some(x)
      || f.text == Some(x) || f.types == Some(x)
    ensures forall a :: FoundStep(f, a) ==> exists i :: 0 <= i < |IssueList(f)| && IssueList(f)[i].action == a
  {
    var issues := IssueList(f);
    forall a | FoundStep(f, a) ensures exists i :: 0 <= i < |issues| && issues[i].action == a {
      var x :=
        if f.duplicates.Some? && a == RemoveDuplicates then f.duplicates.value
        else if f.missing.Some? && a == HandleMissing then f.missing.value
        else if f.outliers.Some? && a == RemoveOutliers then f.outliers.value
        else if f.text.Some? && a == StandardizeText then f.text.value
        else f.types.value;
      assert x in issues && x.action == a;
      var i :| 0 <= i < |issues| && issues[i] == x;
    }
  }

  /** Consistent findings switch on exactly the steps of the listed issues,
      and carry the strategy exactly when missing values were found. */
  lemma AdviceFollowsIssueList(f: Findings, strategy: MissingStrategy)
    requires Consistent(f)
    ensures var issues, advice := IssueList(f), Advise(f, strategy);
      (forall a :: a != MissingStrategyKey ==>
         (a in advice <==> exists i :: 0 <= i < |issues| && issues[i].action == a))
      && (forall a :: a in advice && a != MissingStrategyKey ==> advice[a] == Enabled)
      && (MissingStrategyKey in advice <==> HandleMissing in advice)
      && (MissingStrategyKey in advice ==> advice[MissingStrategyKey] == Strategy(strategy))
  {
    IssueListActions(f);
    var advice := Advise(f, strategy);
    assert forall a :: a != MissingStrategyKey ==> (a in advice <==> FoundStep(f, a));
  }

  /** `auto_detect_issues` reports at most one issue per check, in the order
      the checks run, each pointing to the cleaning step for its kind. */
  lemma IssuesInCheckOrder(t: Table, p: Parsers)
    requires WellFormed(t)
    ensures var issues := Issues(t, p);
      (forall a, b :: 0 <= a < b < |issues| ==> Rank(issues[a].kind) < Rank(issues[b].kind))
      && (forall i :: 0 <= i < |issues| ==> issues[i].action == StepFor(issues[i].kind))
  {
    FindingsConsistent(t, p);
    IssueListOrdered(FindingsOf(t, p));
  }

  /** Recommendations switch on exactly the steps of the detected issues,
      and carry a strategy for missing values exactly when missing values
      were found: median filling when the table has a numeric column,
      dropping rows otherwise. */
  lemma RecommendationsFollowIssues(t: Table, p: Parsers)
    requires WellFormed(t)
    ensures var issues, recommendations := Issues(t, p), Recommendations(t, p);
      (forall a :: a != MissingStrategyKey ==>
         (a in recommendations <==> exists i :: 0 <= i < |issues| && issues[i].action == a))
      && (forall a :: a in recommendations && a != MissingStrategyKey ==> recommendations[a] == Enabled)
      && (MissingStrategyKey in recommendations <==> HandleMissing in recommendations)
      && (MissingStrategyKey in recommendations ==>
            recommendations[MissingStrategyKey] == Strategy(if HasNumeric(t) then FillMedian else DropRows))
  {
    FindingsConsistent(t, p);
    AdviceFollowsIssueList(FindingsOf(t, p), MissingAdvice(t));
  }

  lemma {:induction false} NoRowsNoOutliers(t: Table, n: nat)
    requires WellFormed(t) && n <= |t.columns| && |t.rows| == 0
    ensures OutlierColumns(t, n) == []
  {
    if n > 0 {
      NoRowsNoOutliers(t, n - 1);
      assert ColumnCells(t.rows, n - 1) == [];
    }
  }

  lemma {:induction false} NoRowsNoText(t: Table, n: nat)
    requires WellFormed(t) && n <= |t.columns| && |t.rows| == 0
    ensures TextColumns(t, n) == [] && !TextRaisesBefore(t, n)
  {
    if n > 0 {
      NoRowsNoText(t, n - 1);
      assert ColumnCells(t.rows, n - 1) == [];
    }
  }

  lemma {:induction false} NoRowsNoTypes(t: Table, p: Parsers, n: nat)
    requires WellFormed(t) && n <= |t.columns| && |t.rows| == 0
    ensures TypeColumns(t, p, n) == []
  {
    if n > 0 {
      NoRowsNoTypes(t, p, n - 1);
      assert ColumnCells(t.rows, n - 1) == [];
    }
  }

  /** A table without rows has nothing to report, and its text check does
      not raise. */
  lemma EmptyTableHasNoIssues(t: Table, p: Parsers)
    requires WellFormed(t) && |t.rows| == 0
    ensures !TextRaisesBefore(t, |t.columns|)
    ensures Issues(t, p) == [] && Recommendations(t, p) == map[]
  {
    NoRowsNoMissing(t, |t.columns|);
    NoRowsNoOutliers(t, |t.columns|);
    NoRowsNoText(t, |t.columns|);
    NoRowsNoTypes(t, p, |t.columns|);
  }

  // -------------------------------------------------- get_data_quality_score

  /** Python's `min` of two numbers: the first unless the second is smaller. */
  function MinReal(a: real, b: real): real
  {
    if b < a then b else a
  }

  /** Python's `max` of two numbers: the first unless the second is larger. */
  function MaxReal(a: real, b: real): real
  {
    if b > a then b else a
  }

  /** The outlier cells the score counts in the first `n` columns: those of
      the numeric columns that have a value. */
  function OutlierTotal(t: Table, n: nat): nat
    requires WellFormed(t) && n <= |t.columns|
  {
    if n == 0 then 0
    else OutlierTotal(t, n - 1) + (if OutlierChecked(t, n - 1) then OutlierCount(t, n - 1) else 0)
  }

  /** The score of a table with rows and columns, before it is clamped:
      100, less twice the missing-cell percentage (at most 30), less twice
      the duplicate-row percentage (at most 20), less the outlier percentage
      (at most 15) when the table has a numeric column. */
  function RawScore(t: Table): real
    requires WellFormed(t) && |t.rows| > 0 && |t.columns| > 0
  {
    var afterMissing := 100.0 - MinReal(MissingPercentage(t) * 2.0, 30.0);
    var afterDuplicates := afterMissing - MinReal(Percent(Duplicated(t), |t.rows|) * 2.0, 20.0);
    if HasNumeric(t) then afterDuplicates - MinReal(Percent(OutlierTotal(t, |t.columns|), |t.rows|), 15.0)
    else afterDuplicates
  }

  /** What `get_data_quality_score` returns, or the `ZeroDivisionError` it
      raises. */
  datatype ScoreOutcome = Scored(value: real) | ZeroDivisionError

  /** `get_data_quality_score`. Without rows, a numeric column makes the
      outlier percentage the Python integer division `0 / 0`, which raises.
      Otherwise a table without rows or without columns makes the
      percentages NaN, and Python's `min(100, nan)` is 100. */
  function Score(t: Table): ScoreOutcome
    requires WellFormed(t)
  {
    if |t.rows| == 0 && HasNumeric(t) then ZeroDivisionError
    else if |t.rows| == 0 || |t.columns| == 0 then Scored(100.0)
    else Scored(MaxReal(0.0, MinReal(100.0, RawScore(t))))
  }

  /** `get_data_quality_score`, with its loop over the numeric columns. */
  method QualityScore(t: Table) returns (score: ScoreOutcome)
    requires WellFormed(t)
    ensures score == Score(t)
  {
    if |t.rows| == 0 {
      if HasNumeric(t) {
        return ZeroDivisionError;
      }
      return Scored(100.0);
    }
    if |t.columns| == 0 {
      return Scored(100.0);
    }
    var value := 100.0;

    PositiveProduct(|t.rows|, |t.columns|);
    var missingPct := Percent(TotalMissing(t), |t.rows| * |t.columns|);
    value := value - MinReal(missingPct * 2.0, 30.0);

    var dupPct := Percent(Duplicated(t), |t.rows|);
    value := value - MinReal(dupPct * 2.0, 20.0);

    if HasNumeric(t) {
      var outlierCount := 0;
      for j := 0 to |t.columns|
        invariant outlierCount == OutlierTotal(t, j)
      {
        if OutlierChecked(t, j) {
          outlierCount := outlierCount + OutlierCount(t, j);
        }
      }
      var outlierPct := Percent(outlierCount, |t.rows|);
      value := value - MinReal(outlierPct, 15.0);
    }
    assert value == RawScore(t);
    score := Scored(MaxReal(0.0, MinReal(100.0, value)));
  }

  lemma PositiveProduct(a: nat, b: nat)
    requires a > 0 && b > 0
    ensures a * b > 0
  {
  }

  /** The score raises only on a table without rows that has a numeric
      column; each deduction is capped, so any score lies between 35 and 100
      and that of a table with rows and columns is never clamped. */
  lemma ScoreBounds(t: Table)
    requires WellFormed(t)
    ensures Score(t).ZeroDivisionError? <==> |t.rows| == 0 && HasNumeric(t)
    ensures Score(t).Scored? ==> 35.0 <= Score(t).value <= 100.0
    ensures |t.rows| > 0 && |t.columns| > 0 ==> Score(t) == Scored(RawScore(t))
  {
    if |t.rows| > 0 && |t.columns| > 0 {
      PositiveProduct(|t.rows|, |t.columns|);
      PercentBounds(TotalMissing(t), |t.rows| * |t.columns|);
      PercentBounds(Duplicated(t), |t.rows|);
      PercentBounds(OutlierTotal(t, |t.columns|), |t.rows|);
    }
  }

  /** The score is perfect exactly when nothing is deducted: no missing
      cell, no duplicate row and no outlier. */
  lemma PerfectScore(t: Table)
    requires WellFormed(t) && |t.rows| > 0 && |t.columns| > 0
    ensures Score(t) == Scored(100.0) <==>
      TotalMissing(t) == 0 && DuplicateCount(t.rows) == 0 && OutlierTotal(t, |t.columns|) == 0
  {
    ScoreBounds(t);
    PositiveProduct(|t.rows|, |t.columns|);
    var missing, duplicates, outliers := TotalMissing(t), Duplicated(t), OutlierTotal(t, |t.columns|);
    PercentBounds(missing, |t.rows| * |t.columns|);
    PercentBounds(duplicates, |t.rows|);
    PercentBounds(outliers, |t.rows|);
    var dm := MinReal(MissingPercentage(t) * 2.0, 30.0);
    var dd := MinReal(Percent(duplicates, |t.rows|) * 2.0, 20.0);
    var dout := if HasNumeric(t) then MinReal(Percent(outliers, |t.rows|), 15.0) else 0.0;
    assert Score(t) == Scored(100.0 - dm - dd - dout);
    assert dm == 0.0 <==> missing == 0;
    assert dd == 0.0 <==> duplicates == 0;
    if !HasNumeric(t) {
      NoNumericNoOutliers(t, |t.columns|);
    } else {
      assert dout == 0.0 <==> outliers == 0;
    }
  }

  lemma {:induction false} NoNumericNoOutliers(t: Table, n: nat)
    requires WellFormed(t) && n <= |t.columns| && !HasNumeric(t)
    ensures OutlierTotal(t, n) == 0
  {
    if n > 0 {
      NoNumericNoOutliers(t, n - 1);
    }
  }

  /** The score and the outliers issue count the same cells. */
  lemma OutlierTotalMatchesIssue(t: Table, n: nat)
    requires WellFormed(t) && n <= |t.columns|
    ensures OutlierTotal(t, n) == SumCounts(OutlierColumns(t, n))
  {
    ListedSum(t.columns, OutlierFindings(t), n);
    OutlierTotalFound(t, n);
  }

  /** The sum of the findings among the first `n` entries. */
  function SumFound(found: seq<Option<nat>>, n: nat): nat
    requires n <= |found|
  {
    if n == 0 then 0 else SumFound(found, n - 1) + (if found[n - 1].Some? then found[n - 1].value else 0)
  }

  /** The counts listed add up to the findings. */
  lemma {:induction false} ListedSum(columns: seq<Column>, found: seq<Option<nat>>, n: nat)
    requires n <= |columns| && n <= |found|
    ensures SumCounts(Listed(columns, found, n)) == SumFound(found, n)
  {
    if n > 0 {
      ListedSum(columns, found, n - 1);
      var init := Listed(columns, found, n - 1);
      if found[n - 1].Some? {
        var r := init + [(columns[n - 1].name, found[n - 1].value)];
        assert r[..|r| - 1] == init;
      }
    }
  }

  /** The score's outlier sum is the sum of the outlier findings: a column
      whose count is 0 adds nothing either way. */
  lemma {:induction false} OutlierTotalFound(t: Table, n: nat)
    requires WellFormed(t) && n <= |t.columns|
    ensures OutlierTotal(t, n) == SumFound(OutlierFindings(t), n)
  {
    if n > 0 {
      OutlierTotalFound(t, n - 1);
      assert OutlierFindings(t)[n - 1] == OutlierFinding(t, n - 1);
    }
  }
}
