/** The script at the bottom of app.py (lines 143-147): the uploaded frame is
    imputed in place, filtered by the side bar, and handed to the chart
    section. */
module Dashboard {
  import opened Frame
  import opened Imputer
  import opened Filter
  import opened Chart
  import opened Stats

  /** One run of the dashboard on an uploaded frame with the user's choices. */
  method Run(df: DataFrame, selCat: seq<string>, selNum: seq<string>, picks: map<string, Range>,
             kind: Option<ChartKind>, xPick: Option<string>, yPick: Option<string>)
    returns (view: Table, outcome: ChartOutcome)
    requires df.Valid() && Imputable(df.Snapshot())
    requires ValidSelection(Imputed(df.Snapshot()), selCat, selNum)
    modifies df
    ensures df.Valid() && df.Snapshot() == Imputed(old(df.Snapshot()))
    ensures view == FilteredView(df.Snapshot(), selCat, selNum, picks)
    ensures outcome == ChartSection(view, kind, xPick, yPick)
  {
    ImputeNulls(df);
    view := SideBar(df, selCat, selNum, picks);
    ViewShape(df.Snapshot(), selCat, selNum, picks);
    outcome := ChartSection(view, kind, xPick, yPick);
  }

  /** After imputation, leaving every slider at its default keeps every row:
      a selected column has a number, so the imputer has filled all its
      missing cells, which the range test would drop. */
  lemma DefaultSlidersKeepImputedRows(t: Table, selNum: seq<string>)
    requires WellFormed(t) && Imputable(t)
    requires ValidSelection(Imputed(t), [], selNum)
    ensures Select(Imputed(t).rows, t.columns, SliderFilters(Imputed(t), selNum, map[])) == Imputed(t).rows
    ensures |FilteredView(Imputed(t), [], selNum, map[]).rows| == |t.rows|
  {
    var r := Imputed(t);
    ImputeLeavesOnlyEmptyColumns(t);
    forall c | c in selNum ensures !NullIn(ColumnCells(r.rows, IndexOf(r.columns, c))) {
      FilledWhereNumbers(t, IndexOf(r.columns, c));
    }
    DefaultRangesKeepAllRows(r, selNum);
  }

  /** The table of the filter scenario: x = [1, 2, 3], y = [4, 5, 6]. */
  const ScenarioTable := Table([Column("x", Numeric), Column("y", Numeric)],
                               [[Some(Num(1.0)), Some(Num(4.0))],
                                [Some(Num(2.0)), Some(Num(5.0))],
                                [Some(Num(3.0)), Some(Num(6.0))]])

  lemma ScenarioRows()
    ensures HasNumbers(ScenarioTable, "x")
    ensures Select(ScenarioTable.rows, ScenarioTable.columns, map["x" := Range(2.0, 3.0)]) ==
            [ScenarioTable.rows[1], ScenarioTable.rows[2]]
  {
    var t := ScenarioTable;
    var f := map["x" := Range(2.0, 3.0)];
    assert IndexOf(t.columns, "x") == 0;
    var xs := ColumnCells(t.rows, 0);
    assert xs == [Some(Num(1.0)), Some(Num(2.0)), Some(Num(3.0))];
    assert Numbers(xs[2..]) == [3.0];
    assert Numbers(xs[1..]) == [2.0, 3.0];
    assert Numbers(xs) == [1.0, 2.0, 3.0];
    assert !Passes(t.columns, t.rows[0], f);
    assert Passes(t.columns, t.rows[1], f);
    assert Passes(t.columns, t.rows[2], f);
    assert Select(t.rows[2..], t.columns, f) == [t.rows[2]];
    assert Select(t.rows[1..], t.columns, f) == [t.rows[1], t.rows[2]];
  }

  lemma ScenarioProjection()
    ensures HasColumn(ScenarioTable.columns, "x")
    ensures Project(Table(ScenarioTable.columns, [ScenarioTable.rows[1], ScenarioTable.rows[2]]), ["x"]) ==
            Table([Column("x", Numeric)], [[Some(Num(2.0))], [Some(Num(3.0))]])
  {
    var t := ScenarioTable;
    assert IndexOf(t.columns, "x") == 0;
    var p := Project(Table(t.columns, [t.rows[1], t.rows[2]]), ["x"]);
    assert p.columns == [Column("x", Numeric)];
    assert p.rows[0] == [Some(Num(2.0))];
    assert p.rows[1] == [Some(Num(3.0))];
  }

  lemma ScenarioSelection()
    ensures ValidSelection(ScenarioTable, [], ["x"])
    ensures SliderFilters(ScenarioTable, ["x"], map["x" := Range(2.0, 3.0)]) == map["x" := Range(2.0, 3.0)]
  {
    ScenarioRows();
    assert IndexOf(ScenarioTable.columns, "x") == 0;
  }

  /** Selecting x with the range [2, 3] keeps the second and third rows, and
      only the x column. */
  lemma FilterScenario()
    ensures ValidSelection(ScenarioTable, [], ["x"])
    ensures FilteredView(ScenarioTable, [], ["x"], map["x" := Range(2.0, 3.0)]) ==
            Table([Column("x", Numeric)], [[Some(Num(2.0))], [Some(Num(3.0))]])
  {
    var f := map["x" := Range(2.0, 3.0)];
    ScenarioSelection();
    ScenarioRows();
    ScenarioProjection();
    assert RangeFiltered(ScenarioTable, ["x"], f) == Table(ScenarioTable.columns, [ScenarioTable.rows[1], ScenarioTable.rows[2]]);
    assert [] + ["x"] == ["x"];
  }

  /** The imputation scenario: a = [1, null, 3], b = ["x", "y", "x"]. */
  const UploadTable := Table([Column("a", Numeric), Column("b", Categorical)],
                             [[Some(Num(1.0)), Some(Str("x"))],
                              [None, Some(Str("y"))],
                              [Some(Num(3.0)), Some(Str("x"))]])

  lemma UploadTableWellFormed()
    ensures WellFormed(UploadTable)
  {
  }

  lemma UploadTableImputable()
    ensures WellFormed(UploadTable) && Imputable(UploadTable)
  {
    var t := UploadTable;
    UploadTableWellFormed();
    assert ValueIn(ColumnCells(t.rows, 0)) by { assert ColumnCells(t.rows, 0)[0].Some?; }
    assert ValueIn(ColumnCells(t.rows, 1)) by { assert ColumnCells(t.rows, 1)[0].Some?; }
  }

  lemma UploadMean()
    ensures Numbers(ColumnCells(UploadTable.rows, 0)) == [1.0, 3.0]
    ensures Mean([1.0, 3.0]) == 2.0
  {
    var a := ColumnCells(UploadTable.rows, 0);
    assert a == [Some(Num(1.0)), None, Some(Num(3.0))];
    assert Numbers(a[2..]) == [3.0];
    assert Numbers(a[1..]) == [3.0];
    assert Sum([1.0, 3.0]) == 4.0 by {
      assert [1.0, 3.0][1..] == [3.0];
      assert Sum([3.0]) == 3.0;
    }
  }

  /** The missing `a` becomes the mean of 1 and 3. */
  lemma ImputeScenario()
    ensures WellFormed(UploadTable) && Imputable(UploadTable)
    ensures |Imputed(UploadTable).rows| == 3 && |Imputed(UploadTable).rows[1]| == 2
    ensures Imputed(UploadTable).rows[1][0] == Some(Num(2.0))
  {
    UploadTableImputable();
    UploadMean();
    ImputeFillsNumeric(UploadTable, 1, 0);
  }

  /** An all-empty column, which `read_csv` types as float64, next to a
      categorical column with one missing cell. */
  const SparseTable := Table([Column("a", Numeric), Column("b", Categorical)],
                             [[None, Some(Str("x"))],
                              [None, None]])

  lemma SparseWellFormed()
    ensures WellFormed(SparseTable)
  {
  }

  lemma SparseColumns()
    ensures WellFormed(SparseTable) && Imputable(SparseTable)
    ensures Numbers(ColumnCells(SparseTable.rows, 0)) == []
    ensures Strings(ColumnCells(SparseTable.rows, 1)) == ["x"]
  {
    SparseWellFormed();
    var b := ColumnCells(SparseTable.rows, 1);
    assert b == [Some(Str("x")), None];
    assert Strings(b[1..]) == [];
    assert ValueIn(b) by { assert b[0].Some?; }
    var a := ColumnCells(SparseTable.rows, 0);
    assert a == [None, None];
    assert Numbers(a[1..]) == [];
  }

  /** The mean of the empty column is NaN, so it stays missing and the
      imputer does not fail. */
  lemma SparseNumericStaysMissing()
    ensures WellFormed(SparseTable) && Imputable(SparseTable)
    ensures |Imputed(SparseTable).rows| == 2
    ensures Imputed(SparseTable).rows[0][0] == None && Imputed(SparseTable).rows[1][0] == None
  {
    SparseColumns();
    ImputeFillsNumeric(SparseTable, 0, 0);
    ImputeFillsNumeric(SparseTable, 1, 0);
  }

  /** The categorical gap receives the only present value, "x". */
  lemma SparseCategoricalFilled()
    ensures WellFormed(SparseTable) && Imputable(SparseTable)
    ensures |Imputed(SparseTable).rows| == 2 && |Imputed(SparseTable).rows[1]| == 2
    ensures Imputed(SparseTable).rows[1][1] == Some(Str("x"))
  {
    SparseColumns();
    ImputeFillsCategorical(SparseTable, 1, 1);
    assert Imputed(SparseTable).rows[1][1].value.s in ["x"];
  }
}
