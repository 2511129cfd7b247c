/** The null-handling step of `infomation` (app.py:36-42): when the frame has
    a missing cell, every column in turn has its missing cells filled, numeric
    columns with the skip-null mean and the others with the first mode. */
module Imputer {
  import opened Frame
  import opened Stats

  /** Every present cell of the series has type `k`. */
  predicate ColumnFits(cells: seq<Cell>, k: Kind) {
    forall i :: 0 <= i < |cells| ==> Fits(cells[i], k)
  }

  /** `mode()[0]` fails on a categorical column made of missing cells only;
      a numeric column never makes the imputer fail (its empty mean is NaN). */
  predicate Imputable(t: Table) {
    forall j :: 0 <= j < |t.columns| && t.columns[j].kind == Categorical && NullIn(ColumnCells(t.rows, j)) ==>
      ValueIn(ColumnCells(t.rows, j))
  }

  /** Column j exists and, when categorical, has a present value to take the mode of. */
  predicate Fillable(t: Table, j: nat) {
    j < |t.columns| && (t.columns[j].kind == Categorical ==> ValueIn(ColumnCells(t.rows, j)))
  }

  /** No column consists of missing cells only. */
  predicate NoAllNullColumn(t: Table) {
    forall j :: 0 <= j < |t.columns| && NullIn(ColumnCells(t.rows, j)) ==> ValueIn(ColumnCells(t.rows, j))
  }

  lemma ColumnFitsOf(t: Table, j: nat)
    requires WellFormed(t) && j < |t.columns|
    ensures ColumnFits(ColumnCells(t.rows, j), t.columns[j].kind)
  {
  }

  lemma NumbersNonEmpty(cells: seq<Cell>)
    requires ColumnFits(cells, Numeric)
    ensures ValueIn(cells) ==> |Numbers(cells)| > 0
  {
    if ValueIn(cells) {
      var i :| 0 <= i < |cells| && cells[i].Some?;
      NumberIn(cells, i);
    }
  }

  lemma StringsNonEmpty(cells: seq<Cell>)
    requires ColumnFits(cells, Categorical) && ValueIn(cells)
    ensures |Strings(cells)| > 0
  {
    var i :| 0 <= i < |cells| && cells[i].Some?;
    StringIn(cells, i);
  }

  /** `df[col].mean()` for a numeric column, `df[col].mode()[0]` otherwise; the
      mean of a column without numbers is NaN, modelled as a missing value. */
  function FillValue(k: Kind, cells: seq<Cell>): (v: Cell)
    requires ColumnFits(cells, k) && (k == Categorical ==> ValueIn(cells))
    ensures Fits(v, k)
    ensures k == Numeric ==> (v.Some? <==> |Numbers(cells)| > 0)
    ensures k == Numeric && v.Some? ==>
      && |Numbers(cells)| > 0 && v.value.Num?
      && v.value.x == Mean(Numbers(cells))
      && Min(Numbers(cells)) <= v.value.x <= Max(Numbers(cells))
    ensures k == Categorical ==>
      v.Some? && v.value.Str? && |Strings(cells)| > 0 && IsFirstMode(v.value.s, Strings(cells))
  {
    match k
    case Numeric =>
      if |Numbers(cells)| > 0 then
        MeanWithinRange(Numbers(cells));
        Some(Num(Mean(Numbers(cells))))
      else None
    case Categorical =>
      StringsNonEmpty(cells);
      Some(Str(Mode(Strings(cells))))
  }

  /** `Series.fillna(v)`: missing cells become `v`, present ones stay; filling
      with NaN leaves the series as it is. */
  function FillNa(cells: seq<Cell>, v: Cell): (r: seq<Cell>)
    ensures |r| == |cells|
    ensures forall i :: 0 <= i < |cells| ==> r[i] == if cells[i].None? then v else cells[i]
    ensures v.None? ==> r == cells
    ensures v.Some? ==> !NullIn(r)
  {
    seq(|cells|, i requires 0 <= i < |cells| => if cells[i].None? then v else cells[i])
  }

  /** Filling twice with the same value is filling once. */
  lemma FillNaIdempotent(cells: seq<Cell>, v: Cell)
    ensures FillNa(FillNa(cells, v), v) == FillNa(cells, v)
  {
  }

  /** The value the imputer writes into the missing cells of column j. */
  function ColumnFill(t: Table, j: nat): (v: Cell)
    requires WellFormed(t) && Fillable(t, j)
    ensures Fits(v, t.columns[j].kind)
  {
    ColumnFitsOf(t, j);
    FillValue(t.columns[j].kind, ColumnCells(t.rows, j))
  }

  /** The rows once the columns before k have been filled. */
  function PartlyImputed(t: Table, k: nat): (rows: seq<Row>)
    requires WellFormed(t) && k <= |t.columns|
    requires forall j :: 0 <= j < k ==> Fillable(t, j)
    ensures |rows| == |t.rows|
  {
    seq(|t.rows|, i requires 0 <= i < |t.rows| =>
      seq(|t.columns|, j requires 0 <= j < |t.columns| =>
        if j < k && t.rows[i][j].None? then ColumnFill(t, j) else t.rows[i][j]))
  }

  /** When the table has a missing cell, every column can be filled: the
      table has a row, so a categorical column without a missing cell has a
      present one. */
  lemma AllColumnsFillable(t: Table)
    requires WellFormed(t) && Imputable(t) && HasNull(t)
    ensures forall j :: 0 <= j < |t.columns| ==> Fillable(t, j)
  {
    var i0, j0 :| 0 <= i0 < |t.rows| && 0 <= j0 < |t.rows[i0]| && t.rows[i0][j0].None?;
    forall j | 0 <= j < |t.columns|
      ensures Fillable(t, j)
    {
      var cells := ColumnCells(t.rows, j);
      if !NullIn(cells) {
        assert cells[i0].Some?;
      }
    }
  }

  /** The imputed table as a function of the original one. */
  function Imputed(t: Table): (r: Table)
    requires WellFormed(t) && Imputable(t)
    ensures r.columns == t.columns && |r.rows| == |t.rows|
  {
    if !HasNull(t) then t
    else
      AllColumnsFillable(t);
      Table(t.columns, PartlyImputed(t, |t.columns|))
  }

  lemma PartlyImputedZero(t: Table)
    requires WellFormed(t)
    ensures PartlyImputed(t, 0) == t.rows
  {
    var p := PartlyImputed(t, 0);
    forall i | 0 <= i < |t.rows| ensures p[i] == t.rows[i] {
    }
  }

  /** Filling the columns before j leaves column j as it was. */
  lemma PartlyImputedColumn(t: Table, j: nat)
    requires WellFormed(t) && j < |t.columns|
    requires forall c :: 0 <= c < j ==> Fillable(t, c)
    ensures ColumnCells(PartlyImputed(t, j), j) == ColumnCells(t.rows, j)
    ensures ColumnFits(ColumnCells(t.rows, j), t.columns[j].kind)
  {
  }

  /** Assigning the filled series of column j extends the prefix by one. */
  lemma PartlyImputedStep(t: Table, j: nat)
    requires WellFormed(t) && j < |t.columns|
    requires forall c :: 0 <= c <= j ==> Fillable(t, c)
    ensures ColumnFill(t, j) == FillValue(t.columns[j].kind, ColumnCells(t.rows, j))
    ensures WithColumn(PartlyImputed(t, j), j, FillNa(ColumnCells(t.rows, j), ColumnFill(t, j))) == PartlyImputed(t, j + 1)
  {
    var before := PartlyImputed(t, j);
    var after := WithColumn(before, j, FillNa(ColumnCells(t.rows, j), ColumnFill(t, j)));
    var next := PartlyImputed(t, j + 1);
    forall i | 0 <= i < |t.rows| ensures after[i] == next[i] {
    }
  }

  /** One pass of the column loop: `df[col] = df[col].fillna(value)` for column j. */
  method FillColumn(df: DataFrame, ghost t: Table, j: nat)
    requires WellFormed(t) && j < |t.columns|
    requires forall c :: 0 <= c <= j ==> Fillable(t, c)
    requires df.Valid() && df.columns == t.columns && df.rows == PartlyImputed(t, j)
    modifies df
    ensures df.Valid() && df.columns == t.columns
    ensures df.rows == PartlyImputed(t, j + 1)
  {
    PartlyImputedColumn(t, j);
    assert Fillable(t, j);
    var cells := df.ColumnAt(j);
    var v := FillValue(df.columns[j].kind, cells);
    df.Assign(j, FillNa(cells, v));
    PartlyImputedStep(t, j);
  }

  /** The column loop of `infomation`: fills column after column, left to right. */
  method FillColumns(df: DataFrame, ghost t: Table)
    requires df.Valid() && df.Snapshot() == t
    requires forall j :: 0 <= j < |t.columns| ==> Fillable(t, j)
    modifies df
    ensures df.Valid() && df.columns == t.columns
    ensures df.rows == PartlyImputed(t, |t.columns|)
  {
    PartlyImputedZero(t);
    var j := 0;
    while j < |df.columns|
      invariant 0 <= j <= |df.columns|
      invariant df.columns == t.columns
      invariant df.rows == PartlyImputed(t, j)
      invariant df.Valid()
    {
      FillColumn(df, t, j);
      j := j + 1;
    }
  }

  /** `infomation`'s imputation: changes the caller's frame in place. */
  method ImputeNulls(df: DataFrame)
    requires df.Valid() && Imputable(df.Snapshot())
    modifies df
    ensures df.Valid()
    ensures df.Snapshot() == Imputed(old(df.Snapshot()))
  {
    if HasNull(df.Snapshot()) {
      ghost var t := df.Snapshot();
      AllColumnsFillable(t);
      FillColumns(df, t);
    }
  }

  /** On a table without missing cells the imputer does nothing. */
  lemma ImputeCleanIsNoOp(t: Table)
    requires WellFormed(t) && !HasNull(t)
    ensures Imputable(t) && Imputed(t) == t
  {
  }

  /** Present cells keep their value and position. */
  lemma ImputeKeepsPresent(t: Table, i: nat, j: nat)
    requires WellFormed(t) && Imputable(t)
    requires i < |t.rows| && j < |t.columns| && t.rows[i][j].Some?
    ensures |Imputed(t).rows[i]| == |t.columns|
    ensures Imputed(t).rows[i][j] == t.rows[i][j]
  {
  }

  /** A missing numeric cell receives the mean of the column's present
      values, or stays missing when the column has none. */
  lemma ImputeFillsNumeric(t: Table, i: nat, j: nat)
    requires WellFormed(t) && Imputable(t)
    requires i < |t.rows| && j < |t.columns| && t.columns[j].kind == Numeric && t.rows[i][j].None?
    ensures |Imputed(t).rows[i]| == |t.columns|
    ensures |Numbers(ColumnCells(t.rows, j))| > 0 ==>
      Imputed(t).rows[i][j] == Some(Num(Mean(Numbers(ColumnCells(t.rows, j)))))
    ensures |Numbers(ColumnCells(t.rows, j))| == 0 ==> Imputed(t).rows[i][j].None?
  {
    assert HasNull(t);
    ImputedAt(t, i, j);
    ColumnFitsOf(t, j);
  }

  /** A missing categorical cell receives the smallest most frequent present value. */
  lemma ImputeFillsCategorical(t: Table, i: nat, j: nat)
    requires WellFormed(t) && Imputable(t)
    requires i < |t.rows| && j < |t.columns| && t.columns[j].kind == Categorical && t.rows[i][j].None?
    ensures |Imputed(t).rows[i]| == |t.columns|
    ensures Imputed(t).rows[i][j].Some? && Imputed(t).rows[i][j].value.Str?
    ensures IsFirstMode(Imputed(t).rows[i][j].value.s, Strings(ColumnCells(t.rows, j)))
  {
    assert HasNull(t);
    ImputedAt(t, i, j);
    ColumnFitsOf(t, j);
  }

  /** Cell (i, j) of the imputed table. */
  lemma ImputedAt(t: Table, i: nat, j: nat)
    requires WellFormed(t) && Imputable(t) && i < |t.rows| && j < |t.columns|
    ensures HasNull(t) ==> Fillable(t, j)
    ensures |Imputed(t).rows[i]| == |t.columns|
    ensures Imputed(t).rows[i][j] == if t.rows[i][j].Some? || !HasNull(t) then t.rows[i][j] else ColumnFill(t, j)
  {
    if HasNull(t) {
      AllColumnsFillable(t);
    }
  }

  /** A cell still missing after imputation lies in a numeric column that had
      no present value and still has none. */
  lemma StillMissing(t: Table, i: nat, j: nat)
    requires WellFormed(t) && Imputable(t) && i < |t.rows| && j < |t.columns|
    ensures CellAt(Imputed(t).rows[i], j).None? ==>
      t.columns[j].kind == Numeric && !ValueIn(ColumnCells(t.rows, j)) && !ValueIn(ColumnCells(Imputed(t).rows, j))
  {
    ImputedAt(t, i, j);
    var cells := ColumnCells(t.rows, j);
    ColumnFitsOf(t, j);
    if t.columns[j].kind == Numeric {
      NumbersNonEmpty(cells);
    }
    if CellAt(Imputed(t).rows[i], j).None? {
      forall i' | 0 <= i' < |t.rows| ensures ColumnCells(Imputed(t).rows, j)[i'].None? {
        ImputedAt(t, i', j);
      }
    }
  }

  /** The imputed table is well formed, and a cell is still missing only in a
      column that had no present value and still has none. */
  lemma ImputeLeavesOnlyEmptyColumns(t: Table)
    requires WellFormed(t) && Imputable(t)
    ensures WellFormed(Imputed(t))
    ensures forall i, j :: 0 <= i < |Imputed(t).rows| && 0 <= j < |t.columns| && Imputed(t).rows[i][j].None? ==>
      t.columns[j].kind == Numeric && !ValueIn(ColumnCells(t.rows, j)) && !ValueIn(ColumnCells(Imputed(t).rows, j))
  {
    var r := Imputed(t);
    forall i, j | 0 <= i < |r.rows| && 0 <= j < |r.columns|
      ensures |r.rows[i]| == |r.columns| && Fits(r.rows[i][j], r.columns[j].kind)
    {
      ImputedAt(t, i, j);
    }
    forall i, j | 0 <= i < |r.rows| && 0 <= j < |t.columns| && r.rows[i][j].None?
      ensures t.columns[j].kind == Numeric && !ValueIn(ColumnCells(t.rows, j)) && !ValueIn(ColumnCells(r.rows, j))
    {
      StillMissing(t, i, j);
    }
  }

  /** A column that had a present value has no missing cell after imputation. */
  lemma ImputeFillsValuedColumns(t: Table, j: nat)
    requires WellFormed(t) && Imputable(t) && j < |t.columns|
    requires ValueIn(ColumnCells(t.rows, j))
    ensures !NullIn(ColumnCells(Imputed(t).rows, j))
  {
    var cells := ColumnCells(Imputed(t).rows, j);
    forall i | 0 <= i < |cells| ensures cells[i].Some? {
      StillMissing(t, i, j);
    }
  }

  /** A column of the imputed table that has a number has no missing cell. */
  lemma FilledWhereNumbers(t: Table, j: nat)
    requires WellFormed(t) && Imputable(t) && j < |t.columns|
    requires |Numbers(ColumnCells(Imputed(t).rows, j))| > 0
    ensures !NullIn(ColumnCells(Imputed(t).rows, j))
  {
    var cells := ColumnCells(Imputed(t).rows, j);
    NumbersHaveValue(cells);
    forall i | 0 <= i < |cells| ensures cells[i].Some? {
      StillMissing(t, i, j);
    }
  }

  /** Without an all-null column, the imputed table has no missing cell. */
  lemma ImputeLeavesNoNull(t: Table)
    requires WellFormed(t) && NoAllNullColumn(t)
    ensures Imputable(t)
    ensures WellFormed(Imputed(t)) && !HasNull(Imputed(t))
  {
    ImputeLeavesOnlyEmptyColumns(t);
    var r := Imputed(t);
    forall i, j | 0 <= i < |r.rows| && 0 <= j < |r.rows[i]| ensures r.rows[i][j].Some? {
      StillMissing(t, i, j);
      assert ColumnCells(t.rows, j)[i] == t.rows[i][j];
    }
  }

  /** Running the imputer a second time changes nothing. */
  lemma ImputeIdempotent(t: Table)
    requires WellFormed(t) && Imputable(t)
    ensures WellFormed(Imputed(t)) && Imputable(Imputed(t))
    ensures Imputed(Imputed(t)) == Imputed(t)
  {
    ImputeLeavesOnlyEmptyColumns(t);
    var r := Imputed(t);
    forall j | 0 <= j < |r.columns| && r.columns[j].kind == Categorical
      ensures !NullIn(ColumnCells(r.rows, j))
    {
      forall i | 0 <= i < |r.rows| ensures ColumnCells(r.rows, j)[i].Some? {
        assert ColumnCells(r.rows, j)[i] == r.rows[i][j];
      }
    }
    if HasNull(r) {
      AllColumnsFillable(r);
      var p := PartlyImputed(r, |r.columns|);
      forall i | 0 <= i < |r.rows| ensures p[i] == r.rows[i] {
        forall j | 0 <= j < |r.columns| ensures p[i][j] == r.rows[i][j] {
          if r.rows[i][j].None? {
            var cells := ColumnCells(r.rows, j);
            NumbersHaveValue(cells);
            assert ColumnFill(r, j).None?;
          }
        }
      }
    } else {
      ImputeCleanIsNoOp(r);
    }
  }
}
