/** The in-memory table the dashboard works on: an ordered list of uniquely
    named columns, each numeric or categorical, and a sequence of rows whose
    cells may be missing. */
module Frame {

  datatype Option<T> = None | Some(value: T)

  /** The two column types the dashboard distinguishes: int64/float64 columns
      are Numeric, object/category columns are Categorical. */
  datatype Kind = Numeric | Categorical

  /** A present cell value; numeric values are reals (float rounding ignored). */
  datatype Value = Num(x: real) | Str(s: string)

  /** A cell is a value or a missing (null / NaN) entry. */
  type Cell = Option<Value>

  type Row = seq<Cell>

  datatype Column = Column(name: string, kind: Kind)

  datatype Table = Table(columns: seq<Column>, rows: seq<Row>)

  /** A present value has the type of its column. */
  predicate Fits(c: Cell, k: Kind) {
    match c
    case None => true
    case Some(v) => if k == Numeric then v.Num? else v.Str?
  }

  predicate UniqueNames(cols: seq<Column>) {
    forall i, j :: 0 <= i < j < |cols| ==> cols[i].name != cols[j].name
  }

  /** The table invariant: unique column names, every row as wide as the
      header, every cell of the type of its column. */
  predicate WellFormed(t: Table) {
    && UniqueNames(t.columns)
    && (forall i :: 0 <= i < |t.rows| ==> |t.rows[i]| == |t.columns|)
    && (forall i, j :: 0 <= i < |t.rows| && 0 <= j < |t.columns| ==> Fits(t.rows[i][j], t.columns[j].kind))
  }

  /** The header: the column names in order. */
  function Names(cols: seq<Column>): (ns: seq<string>)
    ensures |ns| == |cols|
    ensures forall k :: 0 <= k < |cols| ==> ns[k] == cols[k].name
  {
    seq(|cols|, k requires 0 <= k < |cols| => cols[k].name)
  }

  /** No element occurs twice. */
  predicate Distinct<T(==)>(xs: seq<T>) {
    forall i, j :: 0 <= i < j < |xs| ==> xs[i] != xs[j]
  }

  /** Unique column names are exactly a header without repeated names. */
  lemma UniqueNamesDistinct(cols: seq<Column>)
    ensures UniqueNames(cols) <==> Distinct(Names(cols))
  {
  }

  predicate HasColumn(cols: seq<Column>, name: string) {
    exists k :: 0 <= k < |cols| && cols[k].name == name
  }

  /** Position of the first column called `name`, or |cols| when there is none. */
  function IndexOf(cols: seq<Column>, name: string): (j: nat)
    ensures j <= |cols|
    ensures j < |cols| <==> HasColumn(cols, name)
    ensures j < |cols| ==> cols[j].name == name
    ensures forall k :: 0 <= k < j ==> cols[k].name != name
  {
    if cols == [] then 0
    else if cols[0].name == name then 0
    else
      var j := 1 + IndexOf(cols[1..], name);
      assert HasColumn(cols[1..], name) ==> HasColumn(cols, name) by {
        if HasColumn(cols[1..], name) {
          var k :| 0 <= k < |cols| - 1 && cols[1..][k].name == name;
          assert cols[k + 1].name == name;
        }
      }
      assert HasColumn(cols, name) ==> HasColumn(cols[1..], name) by {
        if HasColumn(cols, name) {
          var k :| 0 <= k < |cols| && cols[k].name == name;
          assert cols[1..][k - 1].name == name;
        }
      }
      j
  }

  /** With unique names, the column called like the one at k is at k. */
  lemma IndexOfUnique(cols: seq<Column>, k: nat)
    requires UniqueNames(cols) && k < |cols|
    ensures IndexOf(cols, cols[k].name) == k
  {
    assert HasColumn(cols, cols[k].name);
  }

  /** The cell at position j, or a missing cell when the row is narrower. */
  function CellAt(row: Row, j: nat): Cell {
    if j < |row| then row[j] else None
  }

  /** The series of column j, top to bottom. */
  function ColumnCells(rows: seq<Row>, j: nat): (cells: seq<Cell>)
    ensures |cells| == |rows|
    ensures forall i :: 0 <= i < |rows| ==> cells[i] == CellAt(rows[i], j)
  {
    seq(|rows|, i requires 0 <= i < |rows| => CellAt(rows[i], j))
  }

  /** The rows with column j replaced by `cells`. */
  function WithColumn(rows: seq<Row>, j: nat, cells: seq<Cell>): seq<Row>
    requires |cells| == |rows|
  {
    seq(|rows|, i requires 0 <= i < |rows| => if j < |rows[i]| then rows[i][j := cells[i]] else rows[i])
  }

  /** Reading back a replaced column gives the new series; every other
      column reads as before. */
  lemma ColumnCellsWithColumn(rows: seq<Row>, j: nat, cells: seq<Cell>, j': nat)
    requires |cells| == |rows|
    requires forall i :: 0 <= i < |rows| ==> j < |rows[i]|
    ensures ColumnCells(WithColumn(rows, j, cells), j) == cells
    ensures j' != j ==> ColumnCells(WithColumn(rows, j, cells), j') == ColumnCells(rows, j')
  {
  }

  predicate NullIn(cells: seq<Cell>) {
    exists i :: 0 <= i < |cells| && cells[i].None?
  }

  predicate ValueIn(cells: seq<Cell>) {
    exists i :: 0 <= i < |cells| && cells[i].Some?
  }

  /** `df.isnull().values.any()`: some cell of the table is missing. */
  predicate HasNull(t: Table) {
    exists i, j :: 0 <= i < |t.rows| && 0 <= j < |t.rows[i]| && t.rows[i][j].None?
  }

  /** The present numeric values of a series, in order (what pandas' skip-null
      reductions see). */
  function Numbers(cells: seq<Cell>): (xs: seq<real>)
    ensures |xs| <= |cells|
  {
    if cells == [] then []
    else (match cells[0] case Some(Num(x)) => [x] case _ => []) + Numbers(cells[1..])
  }

  /** The present text values of a series, in order. */
  function Strings(cells: seq<Cell>): (ss: seq<string>)
    ensures |ss| <= |cells|
  {
    if cells == [] then []
    else (match cells[0] case Some(Str(s)) => [s] case _ => []) + Strings(cells[1..])
  }

  /** Every present numeric cell contributes its value. */
  lemma {:induction false} NumberIn(cells: seq<Cell>, i: nat)
    requires i < |cells| && cells[i].Some? && cells[i].value.Num?
    ensures cells[i].value.x in Numbers(cells)
  {
    if i > 0 {
      NumberIn(cells[1..], i - 1);
    }
  }

  /** A series with a number has a present cell. */
  lemma {:induction false} NumbersHaveValue(cells: seq<Cell>)
    ensures |Numbers(cells)| > 0 ==> ValueIn(cells)
  {
    if cells != [] && cells[0].None? {
      NumbersHaveValue(cells[1..]);
      if ValueIn(cells[1..]) {
        var i :| 0 <= i < |cells| - 1 && cells[1..][i].Some?;
        assert cells[i + 1].Some?;
      }
    }
  }

  /** Every present text cell contributes its value. */
  lemma {:induction false} StringIn(cells: seq<Cell>, i: nat)
    requires i < |cells| && cells[i].Some? && cells[i].value.Str?
    ensures cells[i].value.s in Strings(cells)
  {
    if i > 0 {
      StringIn(cells[1..], i - 1);
    }
  }

  /** `a` can be obtained from `b` by deleting elements, keeping the order. */
  predicate IsSubsequence<T(==)>(a: seq<T>, b: seq<T>)
    decreases |b|
  {
    if a == [] then true
    else if b == [] then false
    else if a[0] == b[0] then IsSubsequence(a[1..], b[1..])
    else IsSubsequence(a, b[1..])
  }

  /** A subsequence of `b` is a subsequence of `b` with one more element in front. */
  lemma {:induction false} SubsequenceSkip<T>(a: seq<T>, y: T, b: seq<T>)
    requires IsSubsequence(a, b)
    ensures IsSubsequence(a, [y] + b)
    decreases |b|, 1
  {
    if a != [] && a[0] == y {
      SubsequenceTail(a, b);
      assert ([y] + b)[1..] == b;
    } else {
      assert ([y] + b)[1..] == b;
    }
  }

  /** Dropping the first element of a subsequence keeps it a subsequence. */
  lemma {:induction false} SubsequenceTail<T>(a: seq<T>, b: seq<T>)
    requires a != [] && IsSubsequence(a, b)
    ensures IsSubsequence(a[1..], b)
    decreases |b|, 0
  {
    if a[0] == b[0] {
      SubsequenceSkip(a[1..], b[0], b[1..]);
    } else {
      SubsequenceTail(a, b[1..]);
      SubsequenceSkip(a[1..], b[0], b[1..]);
    }
    assert [b[0]] + b[1..] == b;
  }

  lemma {:induction false} SubsequenceNoLonger<T>(a: seq<T>, b: seq<T>)
    requires IsSubsequence(a, b)
    ensures |a| <= |b|
    decreases |b|
  {
    if a != [] {
      if a[0] == b[0] {
        SubsequenceNoLonger(a[1..], b[1..]);
      } else {
        SubsequenceNoLonger(a, b[1..]);
      }
    }
  }

  /** A pandas DataFrame as the dashboard uses it: a header and rows that the
      imputer updates in place, one column at a time. */
  class DataFrame {
    var columns: seq<Column>
    var rows: seq<Row>

    ghost predicate Valid()
      reads this
    {
      WellFormed(Table(columns, rows))
    }

    /** `df.copy()`: the current contents as a value. */
    function Snapshot(): Table
      reads this
    {
      Table(columns, rows)
    }

    /** The frame that `pd.read_csv` produced (parsing is not modelled). */
    constructor (t: Table)
      requires WellFormed(t)
      ensures Valid() && Snapshot() == t
    {
      columns := t.columns;
      rows := t.rows;
    }

    /** `df[col]`: the series of column j. */
    function ColumnAt(j: nat): seq<Cell>
      reads this
    {
      ColumnCells(rows, j)
    }

    /** `df[col] = cells`: replaces the series of column j and nothing else. */
    method Assign(j: nat, cells: seq<Cell>)
      requires Valid() && j < |columns| && |cells| == |rows|
      requires forall i :: 0 <= i < |cells| ==> Fits(cells[i], columns[j].kind)
      modifies this
      ensures Valid()
      ensures columns == old(columns)
      ensures rows == WithColumn(old(rows), j, cells)
      ensures ColumnAt(j) == cells
    {
      rows := WithColumn(rows, j, cells);
    }
  }
}
