/** The table the engine works on: an ordered list of named, typed columns
    and a sequence of rows, each row holding one cell per column. */
module Frames {
  import opened Seqs

  /** The dtype family of a column, as the engine tells them apart:
      `np.number` columns, `object` columns (text, or values of mixed
      types), datetimes, booleans (numeric to `is_numeric_dtype` but not to
      `select_dtypes(include=[np.number])`), and anything else (categories,
      ...). */
  datatype Kind = Numeric | Object | Datetime | Boolean | Other

  /** One cell: missing (pandas' NaN/None/NaT), a number (a boolean is the
      number 0 or 1, as Python treats it), a string, a timestamp (in
      nanoseconds since the epoch, as pandas stores it), or a value of some
      other type. */
  datatype Cell = Missing | Num(x: real) | Str(s: string) | Stamp(t: int) | Opaque(code: int)

  datatype Column = Column(name: string, kind: Kind)

  type Row = seq<Cell>

  datatype Table = Table(columns: seq<Column>, rows: seq<Row>)

  /** `pd.to_numeric` and `pd.to_datetime` applied to one string, and
      `pd.to_datetime` applied to one number (read as an epoch): the parsed
      value, or None where pandas raises. Their parsing rules belong to
      pandas and are left as parameters of the model. */
  datatype Parsers = Parsers(number: string -> Option<real>, datetime: string -> Option<int>, epoch: real -> Option<int>)

  /** `pd.to_numeric` on one value of an object column: a number stays, a
      string is parsed, and anything else makes it raise. */
  function NumberOf(p: Parsers, c: Cell): Option<real>
  {
    match c
    case Num(x) => Some(x)
    case Str(s) => p.number(s)
    case _ => None
  }

  /** `pd.to_datetime` on one value of an object column: a timestamp stays,
      a string is parsed, a number is read as an epoch, and anything else
      makes it raise. */
  function StampOf(p: Parsers, c: Cell): Option<int>
  {
    match c
    case Stamp(t) => Some(t)
    case Str(s) => p.datetime(s)
    case Num(x) => p.epoch(x)
    case _ => None
  }

  /** The strategies of `handle_missing`, named in the engine by the strings
      `'Drop rows'`, `'Fill with mean'`, `'Fill with median'`,
      `'Fill with mode'` and `'Forward fill'`; any other name is kept as
      `Unrecognized`. */
  datatype MissingStrategy = DropRows | FillMean | FillMedian | FillMode | ForwardFill | Unrecognized(name: string)

  /** The strategy a name selects. */
  function StrategyNamed(name: string): (r: MissingStrategy)
    ensures r.Unrecognized? ==> r.name == name
  {
    if name == "Drop rows" then DropRows
    else if name == "Fill with mean" then FillMean
    else if name == "Fill with median" then FillMedian
    else if name == "Fill with mode" then FillMode
    else if name == "Forward fill" then ForwardFill
    else Unrecognized(name)
  }

  /** A cell can sit in a column of kind `k`: an object column and a column
      of another dtype hold anything; otherwise a present cell fits the
      column of its own kind, and a missing cell fits every column but a
      boolean one (pandas stores a boolean column with a missing value as an
      object column). */
  predicate Fits(k: Kind, c: Cell)
  {
    if k == Object || k == Other then true
    else match c
      case Missing => k != Boolean
      case Num(x) => k == Numeric || (k == Boolean && (x == 0.0 || x == 1.0))
      case Stamp(_) => k == Datetime
      case _ => false
  }

  /** `pd.api.types.is_numeric_dtype`, which `numeric_only=True` also
      follows: numbers and booleans. */
  predicate NumericDtype(k: Kind)
  {
    k == Numeric || k == Boolean
  }

  /** Every row has one cell per column, of the column's kind. */
  predicate Shaped(rows: seq<Row>, columns: seq<Column>)
  {
    forall r :: r in rows ==>
      |r| == |columns| && forall j :: 0 <= j < |columns| ==> Fits(columns[j].kind, r[j])
  }

  predicate UniqueNames(columns: seq<Column>)
  {
    forall a, b :: 0 <= a < b < |columns| ==> columns[a].name != columns[b].name
  }

  predicate WellFormed(t: Table)
  {
    Shaped(t.rows, t.columns) && UniqueNames(t.columns)
  }

  predicate Present(c: Cell)
  {
    !c.Missing?
  }

  /** The cells of column `j`, top to bottom. */
  function ColumnCells(rows: seq<Row>, j: nat): (r: seq<Cell>)
    requires forall row :: row in rows ==> j < |row|
    ensures |r| == |rows|
    ensures forall i :: 0 <= i < |rows| ==> r[i] == rows[i][j]
  {
    seq(|rows|, i requires 0 <= i < |rows| => rows[i][j])
  }

  /** pandas' `isnull().sum()` on one column. */
  function MissingCount(cells: seq<Cell>): nat
  {
    if cells == [] then 0
    else MissingCount(cells[..|cells| - 1]) + (if cells[|cells| - 1].Missing? then 1 else 0)
  }

  /** pandas' `dropna()` on one column. */
  function NonMissing(cells: seq<Cell>): seq<Cell>
  {
    Filter(Present, cells)
  }

  /** The numbers of a column, in order, with its missing cells dropped. */
  function Numbers(cells: seq<Cell>): seq<real>
  {
    if cells == [] then []
    else
      var last := cells[|cells| - 1];
      Numbers(cells[..|cells| - 1]) + (if last.Num? then [last.x] else [])
  }

  /** The strings of a column, in order, with its missing cells dropped. */
  function Strings(cells: seq<Cell>): seq<string>
  {
    if cells == [] then []
    else
      var last := cells[|cells| - 1];
      Strings(cells[..|cells| - 1]) + (if last.Str? then [last.s] else [])
  }

  /** A cell is missing or present, never both: the two counts of a column
      add up to its length. */
  lemma {:induction false} MissingPlusPresent(cells: seq<Cell>)
    ensures MissingCount(cells) + |NonMissing(cells)| == |cells|
    decreases |cells|
  {
    if cells != [] {
      MissingPlusPresent(cells[..|cells| - 1]);
    }
  }

  /** In a numeric column every present cell is a number, so dropping the
      missing cells leaves exactly the numbers. */
  lemma {:induction false} NumbersOfNumericColumn(cells: seq<Cell>)
    requires forall c :: c in cells ==> Fits(Numeric, c)
    ensures |Numbers(cells)| == |NonMissing(cells)|
    ensures |Numbers(cells)| + MissingCount(cells) == |cells|
    decreases |cells|
  {
    if cells != [] {
      NumbersOfNumericColumn(cells[..|cells| - 1]);
    }
    MissingPlusPresent(cells);
  }

  /** The strings of a column are among its present cells, and are all of
      them exactly when every value of the column is a string. */
  lemma {:induction false} StringsOfObjectColumn(cells: seq<Cell>)
    ensures |Strings(cells)| <= |NonMissing(cells)|
    ensures |Strings(cells)| == |NonMissing(cells)| <==> forall c :: c in cells ==> c.Missing? || c.Str?
    decreases |cells|
  {
    if cells != [] {
      var init := cells[..|cells| - 1];
      StringsOfObjectColumn(init);
      assert cells == init + [cells[|cells| - 1]];
      assert forall c :: c in cells <==> c in init || c == cells[|cells| - 1];
    }
  }

  /** The `.str` accessor refuses a column that has values but no string
      among them, raising `AttributeError`. */
  predicate StrAccessorRaises(cells: seq<Cell>)
  {
    (exists i :: 0 <= i < |cells| && !cells[i].Missing?)
    && forall i :: 0 <= i < |cells| ==> !cells[i].Str?
  }

  /** Every string of a column comes from one of its cells. */
  lemma {:induction false} StringsMembers(cells: seq<Cell>)
    ensures forall x :: x in Strings(cells) ==> Str(x) in cells
    decreases |cells|
  {
    if cells != [] {
      StringsMembers(cells[..|cells| - 1]);
      assert forall c :: c in cells[..|cells| - 1] ==> c in cells;
    }
  }

  lemma ColumnCellsFit(t: Table, j: nat)
    requires WellFormed(t) && j < |t.columns|
    ensures forall c :: c in ColumnCells(t.rows, j) ==> Fits(t.columns[j].kind, c)
  {
    var cells := ColumnCells(t.rows, j);
    forall c | c in cells ensures Fits(t.columns[j].kind, c) {
      var i :| 0 <= i < |cells| && cells[i] == c;
      assert t.rows[i] in t.rows;
    }
  }
}
