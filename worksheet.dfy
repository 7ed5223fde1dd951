/** `json_to_excel` as the sequence of loops it runs over the loaded
    worksheet (parser.py, lines 242-444). Each method is one loop of the
    source and leaves the grid equal to the matching pass of `Sheet`. */
module Workbook {
  import opened Wrappers
  import opened Strings
  import opened TableModel
  import opened Numeric
  import opened Sheet

  /** The conversion loop of parser.py, lines 276-334, for one row: the
      indentation prefix, then each entry classified as text or a number. */
  method PrepareRow(row: LogicalRow) returns (values: seq<Value>)
    requires !(row.indentLevel > 0 && |row.data| == 0)
    ensures |values| == |row.data|
    ensures forall c :: 0 <= c < |row.data| ==> values[c] == Classify(CellText(row, c)).value
  {
    var data := row.data;
    if row.indentLevel > 0 && data[0] != "" && !row.centerContinuous {
      data := data[0 := Repeat(' ', 2 * row.indentLevel) + data[0]];
    }
    assert forall j :: 0 <= j < |data| ==> data[j] == CellText(row, j);
    values := ClassifyEntries(data);
  }

  /** The inner loop of lines 296-332: each entry's value. */
  method ClassifyEntries(data: seq<string>) returns (values: seq<Value>)
    ensures |values| == |data|
    ensures forall c :: 0 <= c < |data| ==> values[c] == Classify(data[c]).value
  {
    values := [];
    var c := 0;
    while c < |data|
      invariant 0 <= c <= |data| && |values| == c
      invariant forall j :: 0 <= j < c ==> values[j] == Classify(data[j]).value
    {
      values := values + [Classify(data[c]).value];
      c := c + 1;
    }
  }

  /** The rows handed to the data frame: one value per entry of each table
      row, after indentation, classified as text or a number. */
  predicate Converted(t: TableJson, rows: seq<seq<Value>>) {
    |rows| == |t.table| && forall i :: 0 <= i < |t.table| ==>
      |rows[i]| == |t.table[i].data| &&
      forall c :: 0 <= c < |t.table[i].data| ==> rows[i][c] == Classify(CellText(t.table[i], c)).value
  }

  /** The value the reloaded sheet holds at row `r`, column `c`: the data
      frame's entry, with an empty string coming back as no value, and no
      value past its end. */
  function FrameValue(rows: seq<seq<Value>>, r: nat, c: nat): Value {
    if r < |rows| && c < |rows[r]| then Reloaded(rows[r][c]) else Empty
  }

  /** The sheet `to_excel` writes for the data frame of `rows`: one unstyled
      cell per entry, and the single cell `A1` for an empty table. */
  function LoadedGrid(t: TableJson, rows: seq<seq<Value>>): (g: Grid)
    ensures Rect(g, SheetRows(t), SheetCols(t))
    ensures forall r, c :: 0 <= r < SheetRows(t) && 0 <= c < SheetCols(t) ==> g[r][c] == PlainCell(FrameValue(rows, r, c))
  {
    seq(SheetRows(t), r requires 0 <= r < SheetRows(t) =>
      seq(SheetCols(t), c requires 0 <= c < SheetCols(t) => PlainCell(FrameValue(rows, r, c))))
  }

  /** Loading the converted rows gives the first-pass sheet of the table. */
  lemma LoadedIsInitial(t: TableJson, rows: seq<seq<Value>>)
    requires WellFormed(t) && Converted(t, rows)
    ensures LoadedGrid(t, rows) == InitialGrid(t)
  {
    var a, b := LoadedGrid(t, rows), InitialGrid(t);
    forall r, c | 0 <= r < |a| && 0 <= c < |a[r]|
      ensures a[r][c] == b[r][c]
    {
      assert FrameValue(rows, r, c) == Reloaded(Classify(CellText(RowAt(t, r), c)).value);
    }
    GridsEqual(a, b);
  }

  /** The rows handed to the data frame, or the `IndexError` of line 283 on
      an indented row with no entries. */
  method PrepareRows(t: TableJson) returns (r: Option<seq<seq<Value>>>)
    ensures r.None? <==> exists i :: 0 <= i < |t.table| && t.table[i].indentLevel > 0 && |t.table[i].data| == 0
    ensures r.Some? ==> Converted(t, r.value)
  {
    var rows: seq<seq<Value>> := [];
    var i := 0;
    while i < |t.table|
      invariant 0 <= i <= |t.table| && |rows| == i
      invariant forall k :: 0 <= k < i ==> !(t.table[k].indentLevel > 0 && |t.table[k].data| == 0)
      invariant forall k :: 0 <= k < i ==>
                  |rows[k]| == |t.table[k].data| &&
                  forall c :: 0 <= c < |t.table[k].data| ==> rows[k][c] == Classify(CellText(t.table[k], c)).value
    {
      if t.table[i].indentLevel > 0 && |t.table[i].data| == 0 {
        return None;
      }
      var values := PrepareRow(t.table[i]);
      rows := rows + [values];
      i := i + 1;
    }
    return Some(rows);
  }

  /** The loaded worksheet: its cells, and the widths set on its columns. */
  class Worksheet {
    var grid: Grid
    var widths: seq<nat>

    /** The worksheet `json_to_excel` saves: the styled sheet of the table,
        each column as wide as its longest displayed value allows. */
    predicate Styled(t: TableJson, url: Option<string>, alternating: bool)
      reads this
    {
      grid == Render(t, url, alternating) && widths == ColumnWidths(grid, SheetCols(t))
    }

    /** `to_excel` followed by `load_workbook` (lines 337-344): one cell per
        entry, unstyled, or the single empty cell `A1` for an empty table. */
    constructor Load(t: TableJson, rows: seq<seq<Value>>)
      ensures grid == LoadedGrid(t, rows) && widths == []
    {
      ghost var goal := LoadedGrid(t, rows);
      var g: Grid := [];
      var r := 0;
      while r < SheetRows(t)
        invariant 0 <= r <= SheetRows(t) && |g| == r
        invariant forall i :: 0 <= i < r ==> g[i] == goal[i]
      {
        var cells: seq<CellRec> := [];
        var c := 0;
        while c < SheetCols(t)
          invariant 0 <= c <= SheetCols(t) && |cells| == c
          invariant forall j :: 0 <= j < c ==> cells[j] == PlainCell(FrameValue(rows, r, j))
        {
          var v := if r < |rows| && c < |rows[r]| then Reloaded(rows[r][c]) else Empty;
          cells := cells + [PlainCell(v)];
          c := c + 1;
        }
        assert cells == goal[r];
        g := g + [cells];
        r := r + 1;
      }
      assert g == goal;
      grid := g;
      widths := [];
    }

    /** Lines 357-361: every linked entry gets its hyperlink and the link
        font, in row-major order; a linked cell without a value takes the
        link target as its value, as openpyxl's hyperlink setter does. */
    method ApplyHyperlinks(t: TableJson)
      modifies this
      ensures grid == LinkPass(t, old(grid)) && widths == old(widths)
    {
      var g0 := grid;
      var goal := LinkPass(t, g0);
      var r := 0;
      while r < |grid|
        invariant 0 <= r <= |grid| == |g0|
        invariant forall i :: 0 <= i < r ==> grid[i] == goal[i]
        invariant forall i :: r <= i < |grid| ==> grid[i] == g0[i]
        invariant widths == old(widths)
      {
        var c := 0;
        while c < |grid[r]|
          invariant r < |g0| == |grid| && 0 <= c <= |grid[r]| == |g0[r]|
          invariant forall j :: 0 <= j < c ==> grid[r][j] == goal[r][j]
          invariant forall j :: c <= j < |grid[r]| ==> grid[r][j] == g0[r][j]
          invariant forall i :: 0 <= i < |grid| && i != r ==> grid[i] == if i < r then goal[i] else g0[i]
          invariant widths == old(widths)
        {
          var link := LinkOf(RowAt(t, r), c);
          if Truthy(link) {
            var x := grid[r][c];
            if x.value == Empty {
              x := x.(value := Text(link.value));
            }
            grid := grid[r := grid[r][c := x.(hyperlink := link, font := LinkFont)]];
          }
          c := c + 1;
        }
        r := r + 1;
      }
    }

    /** Lines 364-386: every numeric entry gets the format string of its
        number style. */
    method ApplyNumberFormats(t: TableJson)
      modifies this
      ensures grid == FormatPass(t, old(grid)) && widths == old(widths)
    {
      var g0 := grid;
      var goal := FormatPass(t, g0);
      var r := 0;
      while r < |grid|
        invariant 0 <= r <= |grid| == |g0|
        invariant forall i :: 0 <= i < r ==> grid[i] == goal[i]
        invariant forall i :: r <= i < |grid| ==> grid[i] == g0[i]
        invariant widths == old(widths)
      {
        var c := 0;
        while c < |grid[r]|
          invariant r < |g0| == |grid| && 0 <= c <= |grid[r]| == |g0[r]|
          invariant forall j :: 0 <= j < c ==> grid[r][j] == goal[r][j]
          invariant forall j :: c <= j < |grid[r]| ==> grid[r][j] == g0[r][j]
          invariant forall i :: 0 <= i < |grid| && i != r ==> grid[i] == if i < r then goal[i] else g0[i]
          invariant widths == old(widths)
        {
          var cls := Classify(CellText(RowAt(t, r), c));
          if cls.style.Some? {
            var x := grid[r][c];
            grid := grid[r := grid[r][c := x.(numberFormat := FormatString(cls.style.value))]];
          }
          c := c + 1;
        }
        r := r + 1;
      }
    }

    /** Lines 389-397: a centred title row is centred across `A` to the last
        column; otherwise an indented row's `A` cell is indented. */
    method AlignRows(t: TableJson)
      requires WellFormed(t) && t.columnCount > 0 && IndentsFit(t)
      requires Rect(grid, SheetRows(t), SheetCols(t))
      modifies this
      ensures grid == AlignPass(t, old(grid)) && widths == old(widths)
    {
      var g0 := grid;
      var goal := AlignPass(t, g0);
      var r := 0;
      while r < |t.table|
        invariant 0 <= r <= |t.table| <= |grid| == |g0|
        invariant forall i :: 0 <= i < r ==> grid[i] == goal[i]
        invariant forall i :: r <= i < |grid| ==> grid[i] == g0[i]
        invariant widths == old(widths)
      {
        var row := t.table[r];
        if row.centerContinuous {
          var c := 0;
          while c < t.columnCount
            invariant r < |g0| == |grid| && 0 <= c <= t.columnCount == |grid[r]| == |g0[r]|
            invariant forall j :: 0 <= j < c ==> grid[r][j] == goal[r][j]
            invariant forall j :: c <= j < |grid[r]| ==> grid[r][j] == g0[r][j]
            invariant forall i :: 0 <= i < |grid| && i != r ==> grid[i] == if i < r then goal[i] else g0[i]
            invariant widths == old(widths)
          {
            var x := grid[r][c];
            grid := grid[r := grid[r][c := x.(alignment := Alignment(CenterContinuous, true, 0))]];
            c := c + 1;
          }
        } else if row.indentLevel > 0 {
          var x := grid[r][0];
          grid := grid[r := grid[r][0 := x.(alignment := Alignment(NoHorizontal, true, row.indentLevel))]];
          assert grid[r] == goal[r];
        } else {
          assert grid[r] == goal[r];
        }
        r := r + 1;
      }
      assert forall i :: |t.table| <= i < |grid| ==> goal[i] == g0[i];
    }

    /** Lines 400-403: every cell of row 1 is white, bold and centred. */
    method FormatHeaderRow()
      requires |grid| > 0
      modifies this
      ensures grid == HeaderPass(old(grid)) && widths == old(widths)
    {
      var g0 := grid;
      var goal := HeaderPass(g0);
      var c := 0;
      while c < |grid[0]|
        invariant 0 < |g0| == |grid| && 0 <= c <= |grid[0]| == |g0[0]|
        invariant forall j :: 0 <= j < c ==> grid[0][j] == goal[0][j]
        invariant forall j :: c <= j < |grid[0]| ==> grid[0][j] == g0[0][j]
        invariant forall i :: 1 <= i < |grid| ==> grid[i] == g0[i]
        invariant widths == old(widths)
      {
        var x := grid[0][c];
        grid := grid[0 := grid[0][c := x.(fill := White, font := BoldFont, alignment := Alignment(Center, true, 0))]];
        c := c + 1;
      }
      assert grid[0] == goal[0];
      assert forall i :: 1 <= i < |grid| ==> grid[i] == goal[i];
    }

    /** Lines 406-411: with a link for the table, `A1` links there, in the
        link font, and shows "Link to Table" when it was empty. */
    method LinkFirstCell(url: Option<string>)
      requires |grid| > 0 && |grid[0]| > 0
      modifies this
      ensures grid == FirstCellPass(url, old(grid)) && widths == old(widths)
    {
      var goal := FirstCellPass(url, grid);
      if Truthy(url) {
        var x := grid[0][0];
        if Falsy(x.value) {
          x := x.(value := Text(LINK_TEXT));
        }
        grid := grid[0 := grid[0][0 := x.(hyperlink := url, font := LinkFont)]];
      }
      GridsEqual(grid, goal);
    }

    /** Lines 414-426: from row 2 on, the alternating fill when enabled, and
        vertical centring for every cell without a horizontal alignment or
        an indent. */
    method ShadeRows(alternating: bool)
      modifies this
      ensures grid == ShadePass(alternating, old(grid)) && widths == old(widths)
    {
      var g0 := grid;
      var goal := ShadePass(alternating, g0);
      if |grid| > 0 {
        assert grid[0] == goal[0];
      }
      var r := 1;
      while r < |grid|
        invariant 1 <= r && (|grid| > 0 ==> r <= |grid|) && |grid| == |g0|
        invariant forall i :: 0 <= i < r && i < |grid| ==> grid[i] == goal[i]
        invariant forall i :: r <= i < |grid| ==> grid[i] == g0[i]
        invariant widths == old(widths)
      {
        var fill := if (r + 1) % 2 == 0 then White else Gray;
        var row := grid[r];
        var c := 0;
        while c < |row|
          invariant 0 <= c <= |row| == |g0[r]|
          invariant forall j :: 0 <= j < c ==> row[j] == goal[r][j]
          invariant forall j :: c <= j < |row| ==> row[j] == g0[r][j]
        {
          var x := row[c];
          if alternating {
            x := x.(fill := fill);
          }
          if x.alignment.horizontal == NoHorizontal && x.alignment.indent == 0 {
            x := x.(alignment := Alignment(NoHorizontal, true, 0));
          }
          row := row[c := x];
          c := c + 1;
        }
        assert row == goal[r];
        grid := grid[r := row];
        r := r + 1;
      }
    }

    /** Lines 429-442: each column's width is its longest displayed value
        plus two, at most 50. */
    method FitColumns(cols: nat)
      requires Rect(grid, |grid|, cols)
      modifies this
      ensures grid == old(grid) && widths == ColumnWidths(grid, cols)
    {
      widths := ColumnWidthsOf(grid, cols);
    }
  }

  /** The inner loop of lines 432-439: the longest displayed value in
      column `c`. */
  method LongestIn(g: Grid, c: nat) returns (longest: nat)
    requires forall r :: 0 <= r < |g| ==> c < |g[r]|
    ensures longest == MaxOf(Lengths(g, c), |g|)
  {
    ghost var lens := Lengths(g, c);
    longest := 0;
    var r := 0;
    while r < |g|
      invariant 0 <= r <= |g| && longest == MaxOf(lens, r)
    {
      var len := |Display(g[r][c].value)|;
      if len > longest {
        longest := len;
      }
      r := r + 1;
    }
  }

  /** The outer loop of lines 429-442. */
  method ColumnWidthsOf(g: Grid, cols: nat) returns (widths: seq<nat>)
    requires Rect(g, |g|, cols)
    ensures widths == ColumnWidths(g, cols)
  {
    widths := [];
    var c := 0;
    while c < cols
      invariant 0 <= c <= cols && widths == ColumnWidths(g, c)
    {
      var longest := LongestIn(g, c);
      widths := widths + [Capped(longest)];
      c := c + 1;
    }
  }

  /** Lines 337-442 once the checks have passed: load the written sheet,
      run the style passes in order, then size the columns. */
  method StyleSheet(t: TableJson, rows: seq<seq<Value>>, url: Option<string>, alternating: bool) returns (ws: Worksheet)
    requires WellFormed(t) && Converted(t, rows) && t.columnCount > 0 && IndentsFit(t)
    ensures fresh(ws) && ws.Styled(t, url, alternating)
  {
    ghost var g0 := InitialGrid(t);
    ghost var g2 := FormatPass(t, LinkPass(t, g0));
    ghost var g4 := HeaderPass(AlignPass(t, g2));
    assert Rect(g2, SheetRows(t), SheetCols(t));
    assert Rect(g4, SheetRows(t), SheetCols(t));
    LoadedIsInitial(t, rows);
    ws := new Worksheet.Load(t, rows);
    ws.ApplyHyperlinks(t);
    ws.ApplyNumberFormats(t);
    ws.AlignRows(t);
    ws.FormatHeaderRow();
    ws.LinkFirstCell(url);
    ws.ShadeRows(alternating);
    ws.FitColumns(SheetCols(t));
  }

  /** `json_to_excel`: the first exception the code raises, or the styled
      worksheet with its column widths. */
  method JsonToExcel(t: TableJson, url: Option<string>, alternating: bool) returns (r: Result<Worksheet, RenderError>)
    requires WellFormed(t)
    ensures r.Failure? <==> RenderFailure(t).Some?
    ensures r.Failure? ==> r.error == RenderFailure(t).value
    ensures r.Success? ==> fresh(r.value) && r.value.Styled(t, url, alternating)
  {
    var rows := PrepareRows(t);
    if rows.None? {
      return Failure(IndentedEmptyRow);
    }
    if |t.table| > MAX_ROWS || (|t.table| > 0 && t.columnCount > MAX_COLS) {
      return Failure(SheetTooLarge);
    }
    if t.columnCount == 0 || t.columnCount > MAX_COLUMN_INDEX {
      return Failure(InvalidColumnCount);
    }
    if !IndentsFit(t) {
      return Failure(IndentTooLarge);
    }
    var ws := StyleSheet(t, rows.value, url, alternating);
    return Success(ws);
  }
}
