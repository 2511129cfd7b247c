/** The decision part of `chartsection` (app.py:110-119): which chart kinds
    need two numeric columns, and which columns the axis boxes offer. */
module Chart {
  import opened Frame

  /** The six entries of the "Choose Chart" box. */
  datatype ChartKind = LineChart | BarChart | PieChart | Histogram | BoxplotChart | ScatterPlot

  /** What is drawn once the precondition holds. */
  datatype Figure =
    | LineFigure(x: string, y: string)
    | ScatterFigure(x: string, y: string)
    | BoxplotFigure(labels: seq<string>)

  /** The outcome of the chart section: nothing to draw (no kind chosen, or a
      kind that has no behaviour), the "at least two numeric columns" warning,
      or the axis choices and the figure. */
  datatype ChartOutcome =
    | NoChart
    | TooFewNumeric
    | Drawn(x: string, yOptions: seq<string>, y: string, figure: Figure)

  /** `select_dtypes(include=['float64', 'int64']).columns.tolist()`: the
      numeric column names, in header order. */
  function NumericColumns(cols: seq<Column>): (ns: seq<string>)
    ensures forall n :: n in ns <==> exists k :: 0 <= k < |cols| && cols[k].name == n && cols[k].kind == Numeric
    ensures IsSubsequence(ns, Names(cols))
  {
    if cols == [] then []
    else
      var rest := NumericColumns(cols[1..]);
      assert forall k :: 1 <= k < |cols| ==> cols[k] == cols[1..][k - 1];
      assert Names(cols) == [cols[0].name] + Names(cols[1..]);
      if cols[0].kind == Numeric then
        assert ([cols[0].name] + rest)[1..] == rest;
        [cols[0].name] + rest
      else
        SubsequenceSkip(rest, cols[0].name, Names(cols[1..]));
        rest
  }

  /** `[col for col in numeric_cols if col != x_axis]`: the names other than
      `x`, in their original order. */
  function Without(ns: seq<string>, x: string): (r: seq<string>)
    ensures forall n :: n in r <==> n in ns && n != x
    ensures x !in ns ==> r == ns
    ensures IsSubsequence(r, ns)
  {
    if ns == [] then []
    else
      var rest := Without(ns[1..], x);
      assert ns == [ns[0]] + ns[1..];
      if ns[0] != x then
        assert ([ns[0]] + rest)[1..] == rest;
        [ns[0]] + rest
      else
        SubsequenceSkip(rest, ns[0], ns[1..]);
        rest
  }

  /** Dropping one present name from distinct names shortens the list by one. */
  lemma {:induction false} WithoutLength(ns: seq<string>, x: string)
    requires Distinct(ns) && x in ns
    ensures |Without(ns, x)| == |ns| - 1
  {
    if ns[0] == x {
      assert x !in ns[1..];
    } else {
      WithoutLength(ns[1..], x);
    }
  }

  /** Unique column names give distinct numeric column names. */
  lemma {:induction false} NumericColumnsDistinct(cols: seq<Column>)
    requires UniqueNames(cols)
    ensures Distinct(NumericColumns(cols))
  {
    if cols != [] {
      NumericColumnsDistinct(cols[1..]);
      assert forall k :: 1 <= k < |cols| ==> cols[k] == cols[1..][k - 1];
      if cols[0].kind == Numeric {
        var rest := NumericColumns(cols[1..]);
        assert cols[0].name !in rest;
        var ns := NumericColumns(cols);
        assert ns == [cols[0].name] + rest;
        forall i, j | 0 <= i < j < |ns| ensures ns[i] != ns[j] {
          if i == 0 {
            assert ns[j] == rest[j - 1];
          } else {
            assert ns[i] == rest[i - 1] && ns[j] == rest[j - 1];
          }
        }
      }
    }
  }

  /** `st.selectbox(label, options)`: the user's pick when it is an option,
      otherwise the first option (the box's default index 0). */
  function SelectBox(options: seq<string>, pick: Option<string>): (r: string)
    requires options != []
    ensures r in options
    ensures pick.Some? && pick.value in options ==> r == pick.value
    ensures !(pick.Some? && pick.value in options) ==> r == options[0]
  {
    if pick.Some? && pick.value in options then pick.value else options[0]
  }

  /** The chart kinds whose branch needs two numeric columns. */
  predicate NeedsTwoNumeric(kind: ChartKind) {
    kind == LineChart || kind == ScatterPlot || kind == BoxplotChart
  }

  /** `chartsection` on the filtered view, with the chosen kind and the users'
      picks for the two axis boxes. */
  function ChartSection(view: Table, kind: Option<ChartKind>, xPick: Option<string>, yPick: Option<string>): (o: ChartOutcome)
    requires UniqueNames(view.columns)
    ensures o.NoChart? <==> kind.None? || !NeedsTwoNumeric(kind.value)
    ensures o.TooFewNumeric? <==> kind.Some? && NeedsTwoNumeric(kind.value) && |NumericColumns(view.columns)| < 2
    ensures o.Drawn? ==>
      && |NumericColumns(view.columns)| >= 2
      && o.x == SelectBox(NumericColumns(view.columns), xPick)
      && o.yOptions == Without(NumericColumns(view.columns), o.x)
      && |o.yOptions| >= 1
      && o.y == SelectBox(o.yOptions, yPick)
    ensures o.Drawn? ==>
      && o.x in NumericColumns(view.columns)
      && (forall n :: n in o.yOptions <==> n in NumericColumns(view.columns) && n != o.x)
      && |o.yOptions| == |NumericColumns(view.columns)| - 1 >= 1
      && o.y in o.yOptions && o.y != o.x
    ensures o.Drawn? && kind == Some(BoxplotChart) ==> o.figure == BoxplotFigure(NumericColumns(view.columns))
    ensures o.Drawn? && kind == Some(LineChart) ==> o.figure == LineFigure(o.x, o.y)
    ensures o.Drawn? && kind == Some(ScatterPlot) ==> o.figure == ScatterFigure(o.x, o.y)
  {
    var numeric := NumericColumns(view.columns);
    if kind.None? || !NeedsTwoNumeric(kind.value) then NoChart
    else if |numeric| < 2 then TooFewNumeric
    else
      var x := SelectBox(numeric, xPick);
      var yOptions := Without(numeric, x);
      NumericColumnsDistinct(view.columns);
      WithoutLength(numeric, x);
      var y := SelectBox(yOptions, yPick);
      var figure := match kind.value
        case LineChart => LineFigure(x, y)
        case ScatterPlot => ScatterFigure(x, y)
        case _ => BoxplotFigure(numeric);
      Drawn(x, yOptions, y, figure)
  }
}
