/** The filter engine of `side_bar` (app.py:70-101): one inclusive range per
    selected numeric column, rows kept when they satisfy every range, then a
    projection onto the selected columns when there are any. */
module Filter {
  import opened Frame
  import opened Stats

  /** An inclusive slider range for one numeric column. */
  datatype Range = Range(lo: real, hi: real)

  /** `lo <= cell <= hi`; a missing cell is NaN, which compares false. */
  predicate InRange(c: Cell, r: Range) {
    c.Some? && c.value.Num? && r.lo <= c.value.x <= r.hi
  }

  /** `df[(df[col] >= lo) & (df[col] <= hi)]` for the column at position j. */
  function KeepInRange(rows: seq<Row>, j: nat, r: Range): seq<Row> {
    if rows == [] then []
    else (if InRange(CellAt(rows[0], j), r) then [rows[0]] else []) + KeepInRange(rows[1..], j, r)
  }

  /** The row satisfies every range of `filters`, each on the column it names. */
  predicate Passes(cols: seq<Column>, row: Row, filters: map<string, Range>) {
    forall c :: c in filters ==> InRange(CellAt(row, IndexOf(cols, c)), filters[c])
  }

  /** Reference definition of the row filter: the rows that pass, in order. */
  function Select(rows: seq<Row>, cols: seq<Column>, filters: map<string, Range>): seq<Row> {
    if rows == [] then []
    else (if Passes(cols, rows[0], filters) then [rows[0]] else []) + Select(rows[1..], cols, filters)
  }

  /** Every selected row satisfies every range. */
  lemma {:induction false} SelectSound(rows: seq<Row>, cols: seq<Column>, filters: map<string, Range>)
    ensures forall k :: 0 <= k < |Select(rows, cols, filters)| ==> Passes(cols, Select(rows, cols, filters)[k], filters)
  {
    if rows != [] {
      SelectSound(rows[1..], cols, filters);
    }
  }

  /** The selected rows keep their original relative order. */
  lemma {:induction false} SelectIsSubsequence(rows: seq<Row>, cols: seq<Column>, filters: map<string, Range>)
    ensures IsSubsequence(Select(rows, cols, filters), rows)
    ensures |Select(rows, cols, filters)| <= |rows|
  {
    var s := Select(rows, cols, filters);
    if rows != [] {
      var rest := Select(rows[1..], cols, filters);
      SelectIsSubsequence(rows[1..], cols, filters);
      if Passes(cols, rows[0], filters) {
        assert s[0] == rows[0] && s[1..] == rest;
      } else if s != [] {
        assert s == rest;
        SelectSound(rows[1..], cols, filters);
        assert s[0] != rows[0];
      }
    }
    assert IsSubsequence(s, rows);
    SubsequenceNoLonger(s, rows);
  }

  /** Each row value occurs in the result exactly as often as in the input
      when it passes, and not at all otherwise. */
  lemma {:induction false} SelectCounts(rows: seq<Row>, cols: seq<Column>, filters: map<string, Range>)
    ensures forall row :: multiset(Select(rows, cols, filters))[row] ==
                           if Passes(cols, row, filters) then multiset(rows)[row] else 0
  {
    if rows != [] {
      SelectCounts(rows[1..], cols, filters);
      assert rows == [rows[0]] + rows[1..];
    }
  }

  /** When every row passes, nothing is removed. */
  lemma {:induction false} SelectKeepsAll(rows: seq<Row>, cols: seq<Column>, filters: map<string, Range>)
    requires forall i :: 0 <= i < |rows| ==> Passes(cols, rows[i], filters)
    ensures Select(rows, cols, filters) == rows
  {
    if rows != [] {
      SelectKeepsAll(rows[1..], cols, filters);
      assert rows == [rows[0]] + rows[1..];
    }
  }

  lemma PassesExtend(cols: seq<Column>, row: Row, filters: map<string, Range>, c: string, r: Range)
    requires c !in filters
    ensures Passes(cols, row, filters[c := r]) <==>
      Passes(cols, row, filters) && InRange(CellAt(row, IndexOf(cols, c)), r)
  {
    if Passes(cols, row, filters[c := r]) {
      forall d | d in filters ensures InRange(CellAt(row, IndexOf(cols, d)), filters[d]) {
        assert filters[c := r][d] == filters[d];
      }
    }
  }

  /** One more mask on the filtered rows is one more range in the reference. */
  lemma {:induction false} KeepInRangeStep(rows: seq<Row>, cols: seq<Column>, filters: map<string, Range>, c: string, r: Range)
    requires c !in filters
    ensures KeepInRange(Select(rows, cols, filters), IndexOf(cols, c), r) == Select(rows, cols, filters[c := r])
  {
    if rows != [] {
      KeepInRangeStep(rows[1..], cols, filters, c, r);
      PassesExtend(cols, rows[0], filters, c, r);
      var s := Select(rows, cols, filters);
      if Passes(cols, rows[0], filters) {
        assert s[0] == rows[0] && s[1..] == Select(rows[1..], cols, filters);
      } else {
        assert s == Select(rows[1..], cols, filters);
      }
    }
  }

  /** The loop of app.py:86-89: starting from the whole frame, each entry of
      `numerical_filters` narrows the rows. Entries are taken in any order,
      which covers the dictionary's insertion order. */
  method ApplyFilters(t: Table, filters: map<string, Range>) returns (rows: seq<Row>)
    ensures rows == Select(t.rows, t.columns, filters)
  {
    rows := t.rows;
    var pending := filters.Keys;
    assert filters - pending == map[];
    SelectKeepsAll(t.rows, t.columns, map[]);
    while pending != {}
      invariant pending <= filters.Keys
      invariant rows == Select(t.rows, t.columns, filters - pending)
      decreases pending
    {
      var col :| col in pending;
      var range := filters[col];
      rows := KeepInRange(rows, IndexOf(t.columns, col), range);
      KeepInRangeStep(t.rows, t.columns, filters - pending, col, range);
      assert (filters - pending)[col := range] == filters - (pending - {col});
      pending := pending - {col};
    }
    assert filters - pending == filters;
  }

  /** The named column has a present numeric value, so its min and max exist. */
  predicate HasNumbers(t: Table, name: string) {
    |Numbers(ColumnCells(t.rows, IndexOf(t.columns, name)))| > 0
  }

  /** `(float(df[col].min()), float(df[col].max()))`, the slider's bounds and default. */
  function Observed(t: Table, name: string): (r: Range)
    requires HasNumbers(t, name)
    ensures r.lo <= r.hi
    ensures r.lo in Numbers(ColumnCells(t.rows, IndexOf(t.columns, name)))
    ensures r.hi in Numbers(ColumnCells(t.rows, IndexOf(t.columns, name)))
    ensures forall x :: x in Numbers(ColumnCells(t.rows, IndexOf(t.columns, name))) ==> r.lo <= x <= r.hi
  {
    var xs := Numbers(ColumnCells(t.rows, IndexOf(t.columns, name)));
    Range(Min(xs), Max(xs))
  }

  /** The range the slider of column `name` returns: the user's choice in
      `picks`, or the default `(min, max)` when the slider was not moved. */
  function SliderRange(t: Table, name: string, picks: map<string, Range>): Range
    requires HasNumbers(t, name)
  {
    if name in picks then picks[name] else Observed(t, name)
  }

  /** The `numerical_filters` dictionary for the selected numeric columns. */
  function SliderFilters(t: Table, selNum: seq<string>, picks: map<string, Range>): (f: map<string, Range>)
    requires forall c :: c in selNum ==> HasNumbers(t, c)
    ensures f.Keys == set c | c in selNum
  {
    map c | c in selNum :: SliderRange(t, c, picks)
  }

  lemma SliderFiltersStep(t: Table, selNum: seq<string>, k: nat, picks: map<string, Range>)
    requires k < |selNum|
    requires forall c :: c in selNum ==> HasNumbers(t, c)
    ensures forall c :: c in selNum[..k + 1] ==> HasNumbers(t, c)
    ensures SliderFilters(t, selNum[..k + 1], picks) ==
            SliderFilters(t, selNum[..k], picks)[selNum[k] := SliderRange(t, selNum[k], picks)]
  {
    assert selNum[..k + 1] == selNum[..k] + [selNum[k]];
  }

  /** The loop of app.py:73-84 that fills `numerical_filters`. */
  method BuildFilters(t: Table, selNum: seq<string>, picks: map<string, Range>) returns (filters: map<string, Range>)
    requires forall c :: c in selNum ==> HasNumbers(t, c)
    ensures filters == SliderFilters(t, selNum, picks)
  {
    filters := map[];
    for k := 0 to |selNum|
      invariant forall c :: c in selNum[..k] ==> HasNumbers(t, c)
      invariant filters == SliderFilters(t, selNum[..k], picks)
    {
      var col := selNum[k];
      assert col in selNum;
      var xs := Numbers(ColumnCells(t.rows, IndexOf(t.columns, col)));
      var minVal, maxVal := Min(xs), Max(xs);
      var selected := if col in picks then picks[col] else Range(minVal, maxVal);
      assert selected == SliderRange(t, col, picks);
      SliderFiltersStep(t, selNum, k, picks);
      filters := filters[col := selected];
    }
    assert selNum[..|selNum|] == selNum;
  }

  /** With every slider at its default and no missing cell in the selected
      columns, the range filter removes no row. */
  lemma DefaultRangesKeepAllRows(t: Table, selNum: seq<string>)
    requires WellFormed(t)
    requires forall c :: c in selNum ==> HasNumbers(t, c)
    requires forall c :: c in selNum ==> !NullIn(ColumnCells(t.rows, IndexOf(t.columns, c)))
    requires forall c :: c in selNum ==> HasColumn(t.columns, c) && t.columns[IndexOf(t.columns, c)].kind == Numeric
    ensures Select(t.rows, t.columns, SliderFilters(t, selNum, map[])) == t.rows
  {
    var f := SliderFilters(t, selNum, map[]);
    forall i | 0 <= i < |t.rows| ensures Passes(t.columns, t.rows[i], f) {
      forall c | c in f ensures InRange(CellAt(t.rows[i], IndexOf(t.columns, c)), f[c]) {
        var j := IndexOf(t.columns, c);
        var cells := ColumnCells(t.rows, j);
        assert cells[i] == t.rows[i][j];
        assert cells[i].Some?;
        NumberIn(cells, i);
      }
    }
    SelectKeepsAll(t.rows, t.columns, f);
  }

  /** `df[names]`: the columns called `names`, in that order. */
  function Project(t: Table, names: seq<string>): (r: Table)
    requires forall k :: 0 <= k < |names| ==> HasColumn(t.columns, names[k])
    ensures |r.columns| == |names| && |r.rows| == |t.rows|
    ensures forall k :: 0 <= k < |names| ==> r.columns[k].name == names[k]
  {
    Table(
      seq(|names|, k requires 0 <= k < |names| => t.columns[IndexOf(t.columns, names[k])]),
      seq(|t.rows|, i requires 0 <= i < |t.rows| =>
        seq(|names|, k requires 0 <= k < |names| => CellAt(t.rows[i], IndexOf(t.columns, names[k])))))
  }

  /** Projecting a well-formed table onto distinct column names gives a
      well-formed table. */
  lemma ProjectWellFormed(t: Table, names: seq<string>)
    requires WellFormed(t) && Distinct(names)
    requires forall k :: 0 <= k < |names| ==> HasColumn(t.columns, names[k])
    ensures WellFormed(Project(t, names))
  {
    var r := Project(t, names);
    assert UniqueNames(r.columns);
  }

  /** Each selected column keeps its type and its cells, looked up by name. */
  lemma ProjectByName(t: Table, names: seq<string>, name: string)
    requires WellFormed(t) && Distinct(names)
    requires forall k :: 0 <= k < |names| ==> HasColumn(t.columns, names[k])
    requires name in names
    ensures HasColumn(Project(t, names).columns, name)
    ensures Project(t, names).columns[IndexOf(Project(t, names).columns, name)] == t.columns[IndexOf(t.columns, name)]
    ensures ColumnCells(Project(t, names).rows, IndexOf(Project(t, names).columns, name)) == ColumnCells(t.rows, IndexOf(t.columns, name))
  {
    var r := Project(t, names);
    ProjectWellFormed(t, names);
    var k :| 0 <= k < |names| && names[k] == name;
    IndexOfUnique(r.columns, k);
  }

  /** What the two multiselects can return: distinct categorical columns and
      distinct numeric columns that have a value for the slider. */
  predicate ValidSelection(t: Table, selCat: seq<string>, selNum: seq<string>) {
    && Distinct(selCat) && Distinct(selNum)
    && (forall c :: c in selCat ==> HasColumn(t.columns, c) && t.columns[IndexOf(t.columns, c)].kind == Categorical)
    && (forall c :: c in selNum ==> HasColumn(t.columns, c) && t.columns[IndexOf(t.columns, c)].kind == Numeric)
    && (forall c :: c in selNum ==> HasNumbers(t, c))
  }

  /** The copy of the frame once the range loop has run, before projection. */
  function RangeFiltered(t: Table, selNum: seq<string>, picks: map<string, Range>): Table
    requires forall c :: c in selNum ==> HasNumbers(t, c)
  {
    Table(t.columns, Select(t.rows, t.columns, SliderFilters(t, selNum, picks)))
  }

  /** The view `side_bar` returns, as a function of the frame and the selections. */
  function FilteredView(t: Table, selCat: seq<string>, selNum: seq<string>, picks: map<string, Range>): Table
    requires ValidSelection(t, selCat, selNum)
  {
    var filtered := RangeFiltered(t, selNum, picks);
    if selCat + selNum != [] then Project(filtered, selCat + selNum) else filtered
  }

  /** `side_bar`: builds the ranges, filters a copy of the frame and projects it.
      The frame itself is only read. */
  method SideBar(df: DataFrame, selCat: seq<string>, selNum: seq<string>, picks: map<string, Range>) returns (view: Table)
    requires ValidSelection(df.Snapshot(), selCat, selNum)
    ensures view == FilteredView(df.Snapshot(), selCat, selNum, picks)
  {
    var filters := BuildFilters(df.Snapshot(), selNum, picks);
    var filtered := df.Snapshot();
    var rows := ApplyFilters(filtered, filters);
    filtered := Table(filtered.columns, rows);
    var toDisplay := selCat + selNum;
    if toDisplay != [] {
      filtered := Project(filtered, toDisplay);
    }
    view := filtered;
  }

  /** Categorical and numeric selections never share a name, and name columns. */
  lemma SelectionDistinct(t: Table, selCat: seq<string>, selNum: seq<string>)
    requires ValidSelection(t, selCat, selNum)
    ensures Distinct(selCat + selNum)
    ensures forall k :: 0 <= k < |selCat + selNum| ==> HasColumn(t.columns, (selCat + selNum)[k])
  {
    var names := selCat + selNum;
    forall i, j | 0 <= i < j < |names| ensures names[i] != names[j] {
      if i < |selCat| && j >= |selCat| {
        assert names[i] in selCat && names[j] in selNum;
      }
    }
    forall k | 0 <= k < |names| ensures HasColumn(t.columns, names[k]) {
      assert names[k] in selCat || names[k] in selNum;
    }
  }

  /** The range filter keeps the header, keeps the table well formed and
      never adds a row. */
  lemma RangeFilteredShape(t: Table, selNum: seq<string>, picks: map<string, Range>)
    requires WellFormed(t)
    requires forall c :: c in selNum ==> HasNumbers(t, c)
    ensures RangeFiltered(t, selNum, picks).columns == t.columns
    ensures WellFormed(RangeFiltered(t, selNum, picks))
    ensures |RangeFiltered(t, selNum, picks).rows| <= |t.rows|
  {
    var f := SliderFilters(t, selNum, picks);
    SelectIsSubsequence(t.rows, t.columns, f);
    SelectWellFormed(t, f);
  }

  /** The view's columns are exactly the selection, in order, or all columns
      when nothing is selected; it has no more rows than the frame. */
  lemma ViewShape(t: Table, selCat: seq<string>, selNum: seq<string>, picks: map<string, Range>)
    requires WellFormed(t) && ValidSelection(t, selCat, selNum)
    ensures WellFormed(FilteredView(t, selCat, selNum, picks))
    ensures selCat + selNum != [] ==> Names(FilteredView(t, selCat, selNum, picks).columns) == selCat + selNum
    ensures selCat + selNum == [] ==> FilteredView(t, selCat, selNum, picks).columns == t.columns
    ensures |FilteredView(t, selCat, selNum, picks).rows| <= |t.rows|
  {
    var filtered := RangeFiltered(t, selNum, picks);
    RangeFilteredShape(t, selNum, picks);
    var names := selCat + selNum;
    if names != [] {
      SelectionDistinct(t, selCat, selNum);
      ProjectWellFormed(filtered, names);
      assert Names(Project(filtered, names).columns) == names;
    }
  }

  /** Selected rows come from the table, so the filtered table stays well formed. */
  lemma SelectWellFormed(t: Table, filters: map<string, Range>)
    requires WellFormed(t)
    ensures WellFormed(Table(t.columns, Select(t.rows, t.columns, filters)))
  {
    var s := Select(t.rows, t.columns, filters);
    SelectCounts(t.rows, t.columns, filters);
    forall i | 0 <= i < |s| ensures |s[i]| == |t.columns| && forall j :: 0 <= j < |t.columns| ==> Fits(s[i][j], t.columns[j].kind) {
      assert s[i] in multiset(s);
      assert s[i] in t.rows;
    }
  }

  /** With nothing selected the view is the frame itself. */
  lemma NoSelectionIsIdentity(t: Table, picks: map<string, Range>)
    requires ValidSelection(t, [], [])
    ensures FilteredView(t, [], [], picks) == t
  {
    SelectKeepsAll(t.rows, t.columns, map[]);
  }
}
