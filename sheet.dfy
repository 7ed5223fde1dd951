/** The worksheet `json_to_excel` produces, as a grid of cell records, and the
    style passes it applies in order (parser.py, lines 272-442). Each pass is
    a function from grid to grid; later passes overwrite earlier ones. */
module Sheet {
  import opened Wrappers
  import opened Strings
  import opened TableModel
  import opened Numeric

  datatype Fill = NoFill | White | Gray
  datatype Font = PlainFont | BoldFont | LinkFont
  datatype Horizontal = NoHorizontal | Center | CenterContinuous

  /** An `Alignment`: horizontal mode, `vertical='center'`, and indent. */
  datatype Alignment = Alignment(horizontal: Horizontal, vcenter: bool, indent: nat)

  const NO_ALIGNMENT := Alignment(NoHorizontal, false, 0)
  const GENERAL := "General"
  const LINK_TEXT := "Link to Table"

  /** One worksheet cell. */
  datatype CellRec = CellRec(
    value: Value,
    numberFormat: string,
    fill: Fill,
    font: Font,
    alignment: Alignment,
    hyperlink: Option<string>)

  /** Rows of cells; sheet row `r + 1` is `grid[r]`, column `c + 1` is `grid[r][c]`. */
  type Grid = seq<seq<CellRec>>

  predicate Rect(g: Grid, rows: nat, cols: nat) {
    |g| == rows && forall r :: 0 <= r < rows ==> |g[r]| == cols
  }

  // ------------------------------------------------------------- first pass

  /** A table row, or an empty one past the end of the table. */
  function RowAt(t: TableJson, r: nat): LogicalRow {
    if r < |t.table| then t.table[r] else LogicalRow([], [], 0, false, 0)
  }

  /** Whether the row's first entry gets the indentation prefix (parser.py,
      line 283): a positive indent, a non-empty first entry, and not a
      centred title. */
  predicate IndentPrefixed(row: LogicalRow) {
    row.indentLevel > 0 && |row.data| > 0 && row.data[0] != "" && !row.centerContinuous
  }

  /** Entry `c` of the row after the indentation of parser.py, line 284:
      two spaces per indent level before the first entry. */
  function CellText(row: LogicalRow, c: nat): (r: string)
    ensures |r| == if c >= |row.data| then 0
                   else if c == 0 && IndentPrefixed(row) then 2 * row.indentLevel + |row.data[0]|
                   else |row.data[c]|
  {
    if c >= |row.data| then ""
    else if c == 0 && IndentPrefixed(row) then Repeat(' ', 2 * row.indentLevel) + row.data[0]
    else row.data[c]
  }

  /** Link `c` of the row. */
  function LinkOf(row: LogicalRow, c: nat): Option<string> {
    if c < |row.links| then row.links[c] else None
  }

  /** The sheet's size once written and loaded back: the table's rows and
      columns, or the single cell `A1` of an empty sheet. */
  function SheetRows(t: TableJson): nat {
    if |t.table| == 0 then 1 else |t.table|
  }

  function SheetCols(t: TableJson): nat {
    if |t.table| == 0 then 1 else t.columnCount
  }

  /** An unstyled cell holding `v`. */
  function PlainCell(v: Value): CellRec {
    CellRec(v, GENERAL, NoFill, PlainFont, NO_ALIGNMENT, None)
  }

  /** A value as `to_excel` writes it and `load_workbook` reads it back:
      openpyxl writes an empty string as a cell without a value, which loads
      as `None`. */
  function Reloaded(v: Value): Value {
    if v == Text("") then Empty else v
  }

  /** Cell `c` of a row as the loaded sheet holds it, before any styling. */
  function InitialCell(row: LogicalRow, c: nat): CellRec {
    PlainCell(Reloaded(Classify(CellText(row, c)).value))
  }

  function InitialGrid(t: TableJson): (g: Grid)
    ensures Rect(g, SheetRows(t), SheetCols(t))
    ensures forall r, c :: 0 <= r < SheetRows(t) && 0 <= c < SheetCols(t) ==> g[r][c] == InitialCell(RowAt(t, r), c)
  {
    seq(SheetRows(t), r requires 0 <= r < SheetRows(t) =>
      seq(SheetCols(t), c requires 0 <= c < SheetCols(t) => InitialCell(RowAt(t, r), c)))
  }

  /** A freshly loaded cell has no value exactly when its entry is empty;
      every other entry comes back as its classified value. */
  lemma EmptyEntryLoadsEmpty(row: LogicalRow, c: nat)
    ensures InitialCell(row, c).value == Empty <==> CellText(row, c) == ""
    ensures CellText(row, c) != "" ==> InitialCell(row, c).value == Classify(CellText(row, c)).value
  {
    var text := CellText(row, c);
    ClassifyIsNumericIff(text);
    if Classify(text).style.Some? {
      var l :| ValidLiteral(l) && LiteralText(l) == Clean(text) && Classify(text).value == LiteralValue(l);
    }
  }

  /** Two grids of the same shape with the same cells are equal. */
  lemma GridsEqual(a: Grid, b: Grid)
    requires |a| == |b| && forall r :: 0 <= r < |a| ==> |a[r]| == |b[r]|
    requires forall r, c :: 0 <= r < |a| && 0 <= c < |a[r]| ==> a[r][c] == b[r][c]
    ensures a == b
  {
    forall r | 0 <= r < |a|
      ensures a[r] == b[r]
    {
      assert forall c :: 0 <= c < |a[r]| ==> a[r][c] == b[r][c];
    }
  }

  // ----------------------------------------------------------- style passes

  /** parser.py, lines 358-361: a cell with a link gets it, in the link font;
      openpyxl's hyperlink setter also makes the link target the value of a
      cell that has none. */
  function LinkStep(row: LogicalRow, c: nat, x: CellRec): CellRec {
    var link := LinkOf(row, c);
    if Truthy(link) then
      x.(value := if x.value == Empty then Text(link.value) else x.value, hyperlink := link, font := LinkFont)
    else x
  }

  /** parser.py, lines 364-386: a numeric cell gets its format string. */
  function FormatStep(row: LogicalRow, c: nat, x: CellRec): CellRec {
    var cls := Classify(CellText(row, c));
    if cls.style.Some? then x.(numberFormat := FormatString(cls.style.value)) else x
  }

  /** parser.py, lines 389-397: a centred title row is centred across every
      column; otherwise an indented row's first cell is indented. */
  function AlignStep(row: LogicalRow, c: nat, x: CellRec): CellRec {
    if row.centerContinuous then x.(alignment := Alignment(CenterContinuous, true, 0))
    else if row.indentLevel > 0 && c == 0 then x.(alignment := Alignment(NoHorizontal, true, row.indentLevel))
    else x
  }

  /** parser.py, lines 400-403: row 1 is white, bold and centred. */
  function HeaderStep(r: nat, x: CellRec): CellRec {
    if r == 0 then x.(fill := White, font := BoldFont, alignment := Alignment(Center, true, 0)) else x
  }

  /** Python truthiness of a cell value. */
  predicate Falsy(v: Value) {
    v == Empty || v == Text("") || v == Int(0) || (v.Decimal? && v.mantissa == 0)
  }

  /** parser.py, lines 406-411: with a link for the table, `A1` shows
      "Link to Table" when it is empty and links there. */
  function FirstCellStep(url: Option<string>, r: nat, c: nat, x: CellRec): CellRec {
    if r == 0 && c == 0 && Truthy(url) then
      x.(value := if Falsy(x.value) then Text(LINK_TEXT) else x.value, hyperlink := url, font := LinkFont)
    else x
  }

  /** parser.py, lines 414-426: from sheet row 2 on, white fill on even
      sheet rows and gray on odd ones (when alternating), and vertical
      centring for every cell not already aligned horizontally or indented. */
  function ShadeStep(alternating: bool, r: nat, x: CellRec): CellRec {
    if r == 0 then x
    else
      var fill := if !alternating then x.fill else if (r + 1) % 2 == 0 then White else Gray;
      var alignment := if x.alignment.horizontal == NoHorizontal && x.alignment.indent == 0
                       then Alignment(NoHorizontal, true, 0) else x.alignment;
      x.(fill := fill, alignment := alignment)
  }

  function LinkPass(t: TableJson, g: Grid): (h: Grid)
    ensures |h| == |g| && forall r :: 0 <= r < |g| ==> |h[r]| == |g[r]|
    ensures forall r, c :: 0 <= r < |g| && 0 <= c < |g[r]| ==> h[r][c] == LinkStep(RowAt(t, r), c, g[r][c])
  {
    seq(|g|, r requires 0 <= r < |g| => seq(|g[r]|, c requires 0 <= c < |g[r]| => LinkStep(RowAt(t, r), c, g[r][c])))
  }

  function FormatPass(t: TableJson, g: Grid): (h: Grid)
    ensures |h| == |g| && forall r :: 0 <= r < |g| ==> |h[r]| == |g[r]|
    ensures forall r, c :: 0 <= r < |g| && 0 <= c < |g[r]| ==> h[r][c] == FormatStep(RowAt(t, r), c, g[r][c])
  {
    seq(|g|, r requires 0 <= r < |g| => seq(|g[r]|, c requires 0 <= c < |g[r]| => FormatStep(RowAt(t, r), c, g[r][c])))
  }

  function AlignPass(t: TableJson, g: Grid): (h: Grid)
    ensures |h| == |g| && forall r :: 0 <= r < |g| ==> |h[r]| == |g[r]|
    ensures forall r, c :: 0 <= r < |g| && 0 <= c < |g[r]| ==> h[r][c] == AlignStep(RowAt(t, r), c, g[r][c])
  {
    seq(|g|, r requires 0 <= r < |g| => seq(|g[r]|, c requires 0 <= c < |g[r]| => AlignStep(RowAt(t, r), c, g[r][c])))
  }

  function HeaderPass(g: Grid): (h: Grid)
    ensures |h| == |g| && forall r :: 0 <= r < |g| ==> |h[r]| == |g[r]|
    ensures forall r, c :: 0 <= r < |g| && 0 <= c < |g[r]| ==> h[r][c] == HeaderStep(r, g[r][c])
  {
    seq(|g|, r requires 0 <= r < |g| => seq(|g[r]|, c requires 0 <= c < |g[r]| => HeaderStep(r, g[r][c])))
  }

  function FirstCellPass(url: Option<string>, g: Grid): (h: Grid)
    ensures |h| == |g| && forall r :: 0 <= r < |g| ==> |h[r]| == |g[r]|
    ensures forall r, c :: 0 <= r < |g| && 0 <= c < |g[r]| ==> h[r][c] == FirstCellStep(url, r, c, g[r][c])
  {
    seq(|g|, r requires 0 <= r < |g| => seq(|g[r]|, c requires 0 <= c < |g[r]| => FirstCellStep(url, r, c, g[r][c])))
  }

  function ShadePass(alternating: bool, g: Grid): (h: Grid)
    ensures |h| == |g| && forall r :: 0 <= r < |g| ==> |h[r]| == |g[r]|
    ensures forall r, c :: 0 <= r < |g| && 0 <= c < |g[r]| ==> h[r][c] == ShadeStep(alternating, r, g[r][c])
  {
    seq(|g|, r requires 0 <= r < |g| => seq(|g[r]|, c requires 0 <= c < |g[r]| => ShadeStep(alternating, r, g[r][c])))
  }

  /** The styled sheet: the passes in the order of parser.py. */
  function Render(t: TableJson, url: Option<string>, alternating: bool): (g: Grid)
    ensures Rect(g, SheetRows(t), SheetCols(t))
  {
    ShadePass(alternating, FirstCellPass(url, HeaderPass(AlignPass(t, FormatPass(t, LinkPass(t, InitialGrid(t)))))))
  }

  /** One cell of the styled sheet: the passes applied to that cell alone. */
  lemma RenderAt(t: TableJson, url: Option<string>, alternating: bool, r: nat, c: nat)
    requires r < SheetRows(t) && c < SheetCols(t)
    ensures Render(t, url, alternating)[r][c]
            == ShadeStep(alternating, r, FirstCellStep(url, r, c, HeaderStep(r,
                 AlignStep(RowAt(t, r), c, FormatStep(RowAt(t, r), c, LinkStep(RowAt(t, r), c,
                   InitialCell(RowAt(t, r), c)))))))
  {
    var g0 := InitialGrid(t);
    var g1 := LinkPass(t, g0);
    var g2 := FormatPass(t, g1);
    var g3 := AlignPass(t, g2);
    var g4 := HeaderPass(g3);
    var g5 := FirstCellPass(url, g4);
    assert g1[r][c] == LinkStep(RowAt(t, r), c, g0[r][c]);
    assert g2[r][c] == FormatStep(RowAt(t, r), c, g1[r][c]);
    assert g3[r][c] == AlignStep(RowAt(t, r), c, g2[r][c]);
    assert g4[r][c] == HeaderStep(r, g3[r][c]);
    assert g5[r][c] == FirstCellStep(url, r, c, g4[r][c]);
  }

  // ------------------------------------------------------ rendered properties

  /** Row 1 ends white, bold and centred, whatever links or row alignment
      were written before; only `A1` keeps the link font when the table is
      linked. */
  lemma HeaderRowStyled(t: TableJson, url: Option<string>, alternating: bool, c: nat)
    requires c < SheetCols(t)
    ensures Render(t, url, alternating)[0][c].fill == White
    ensures Render(t, url, alternating)[0][c].alignment == Alignment(Center, true, 0)
    ensures Render(t, url, alternating)[0][c].font == (if c == 0 && Truthy(url) then LinkFont else BoldFont)
  {
    RenderAt(t, url, alternating, 0, c);
  }

  /** With alternating colours, sheet row `r + 1 >= 2` is white when even
      and gray when odd; without them it keeps no fill. */
  lemma RowsShaded(t: TableJson, url: Option<string>, alternating: bool, r: nat, c: nat)
    requires 1 <= r < SheetRows(t) && c < SheetCols(t)
    ensures alternating && (r + 1) % 2 == 0 ==> Render(t, url, alternating)[r][c].fill == White
    ensures alternating && (r + 1) % 2 == 1 ==> Render(t, url, alternating)[r][c].fill == Gray
    ensures !alternating ==> Render(t, url, alternating)[r][c].fill == NoFill
  {
    RenderAt(t, url, alternating, r, c);
  }

  /** Below row 1, a centred title row is centred across all columns, an
      indented row's first cell carries its indent level, and every other
      cell is only centred vertically. */
  lemma RowAlignment(t: TableJson, url: Option<string>, alternating: bool, r: nat, c: nat)
    requires 1 <= r < SheetRows(t) && c < SheetCols(t)
    ensures Render(t, url, alternating)[r][c].alignment
            == if RowAt(t, r).centerContinuous then Alignment(CenterContinuous, true, 0)
               else if RowAt(t, r).indentLevel > 0 && c == 0 then Alignment(NoHorizontal, true, RowAt(t, r).indentLevel)
               else Alignment(NoHorizontal, true, 0)
  {
    RenderAt(t, url, alternating, r, c);
  }

  /** A centred title row keeps its text unindented. */
  lemma CenterContinuousUnindented(row: LogicalRow, c: nat)
    requires row.centerContinuous && c < |row.data|
    ensures CellText(row, c) == row.data[c]
  {
  }

  /** An indented row's first entry is its text after two spaces per level. */
  lemma IndentPrefix(row: LogicalRow)
    requires row.indentLevel > 0 && |row.data| > 0 && row.data[0] != "" && !row.centerContinuous
    ensures |CellText(row, 0)| == 2 * row.indentLevel + |row.data[0]|
    ensures CellText(row, 0)[2 * row.indentLevel..] == row.data[0]
    ensures forall i :: 0 <= i < 2 * row.indentLevel ==> CellText(row, 0)[i] == ' '
  {
    RepeatAll(' ', 2 * row.indentLevel);
  }

  /** The value cell `c` of a row holds once links are set: its classified
      entry; an empty entry holds no value, or its link target when it has
      a link. */
  function LinkedValue(row: LogicalRow, c: nat): Value {
    var link := LinkOf(row, c);
    if CellText(row, c) == "" then (if Truthy(link) then Text(link.value) else Empty)
    else Classify(CellText(row, c)).value
  }

  /** With a link for the table, `A1` links there and shows "Link to Table"
      when its value is absent, empty or zero; without one, `A1` keeps its
      value. */
  lemma FirstCellLinked(t: TableJson, url: Option<string>, alternating: bool)
    requires SheetCols(t) > 0
    ensures var a1 := Render(t, url, alternating)[0][0];
            var v := LinkedValue(RowAt(t, 0), 0);
            && (Truthy(url) ==> a1.hyperlink == url && a1.font == LinkFont
                                && a1.value == (if Falsy(v) then Text(LINK_TEXT) else v))
            && (!Truthy(url) ==> a1.value == v)
  {
    RenderAt(t, url, alternating, 0, 0);
  }

  /** Every cell's value is its classified entry, except a relabelled `A1`:
      an empty entry holds no value, or its link target when it has a link
      (openpyxl's hyperlink setter). Its number format is the format string
      of its number style, or "General" for text. */
  lemma CellValueAndFormat(t: TableJson, url: Option<string>, alternating: bool, r: nat, c: nat)
    requires r < SheetRows(t) && c < SheetCols(t) && !(r == 0 && c == 0)
    ensures var cls := Classify(CellText(RowAt(t, r), c));
            && Render(t, url, alternating)[r][c].value == LinkedValue(RowAt(t, r), c)
            && Render(t, url, alternating)[r][c].numberFormat
               == (if cls.style.Some? then FormatString(cls.style.value) else GENERAL)
  {
    RenderAt(t, url, alternating, r, c);
  }

  /** A linked cell whose entry is empty shows its link target, so the
      column is sized for the URL; an unlinked empty cell shows nothing. */
  lemma EmptyLinkedCellShowsTarget(t: TableJson, url: Option<string>, alternating: bool, r: nat, c: nat)
    requires r < SheetRows(t) && c < SheetCols(t) && !(r == 0 && c == 0)
    requires CellText(RowAt(t, r), c) == ""
    ensures Truthy(LinkOf(RowAt(t, r), c)) ==>
              Render(t, url, alternating)[r][c].value == Text(LinkOf(RowAt(t, r), c).value)
              && Display(Render(t, url, alternating)[r][c].value) == LinkOf(RowAt(t, r), c).value
    ensures !Truthy(LinkOf(RowAt(t, r), c)) ==>
              Render(t, url, alternating)[r][c].value == Empty
              && Display(Render(t, url, alternating)[r][c].value) == ""
  {
    CellValueAndFormat(t, url, alternating, r, c);
  }

  /** Below row 1, a cell with a link carries it in the link font, and a
      cell without one has no hyperlink and the plain font. */
  lemma CellLinks(t: TableJson, url: Option<string>, alternating: bool, r: nat, c: nat)
    requires 1 <= r < SheetRows(t) && c < SheetCols(t)
    ensures Truthy(LinkOf(RowAt(t, r), c)) ==>
              Render(t, url, alternating)[r][c].hyperlink == LinkOf(RowAt(t, r), c)
              && Render(t, url, alternating)[r][c].font == LinkFont
    ensures !Truthy(LinkOf(RowAt(t, r), c)) ==>
              Render(t, url, alternating)[r][c].hyperlink == None
              && Render(t, url, alternating)[r][c].font == PlainFont
  {
    RenderAt(t, url, alternating, r, c);
  }

  // ------------------------------------------------------------ column width

  const MAX_WIDTH := 50

  /** `str(cell.value)`: exact for text and integers; a decimal is shown in
      fixed point with its decimal places (at least one). */
  function Display(v: Value): (r: string)
    ensures r == "" <==> v.Empty? || v == Text("")
  {
    match v
    case Empty => ""
    case Text(s) => s
    case Int(n) => IntToString(n)
    case Decimal(m, p) => (if m < 0 then "-" else "") + FixedPoint(if m < 0 then -m else m, p)
  }

  /** `mag / 10^p` written with `p` decimal places, and one when `p` is 0:
      the digits of `mag`, zero-padded to more than `p` digits, with the
      point before the last `p`. */
  function FixedPoint(mag: nat, p: nat): string {
    if p == 0 then NatToString(mag) + ".0"
    else
      var s := ZeroPadded(NatToString(mag), p + 1);
      s[..|s| - p] + "." + s[|s| - p..]
  }

  /** `s` with zeros in front up to `width` characters. */
  function ZeroPadded(s: string, width: nat): (r: string)
    ensures |r| >= width && |r| >= |s|
  {
    if |s| < width then Repeat('0', width - |s|) + s else s
  }

  /** The displayed length of cell `(r, c)`; 0 where there is no such cell. */
  function CellLength(g: Grid, r: nat, c: nat): nat {
    if r < |g| && c < |g[r]| then |Display(g[r][c].value)| else 0
  }

  /** The displayed lengths of column `c`, row by row. */
  function Lengths(g: Grid, c: nat): (lens: seq<nat>)
    ensures |lens| == |g|
  {
    seq(|g|, r requires 0 <= r < |g| => CellLength(g, r, c))
  }

  /** The largest of the first `n` lengths, or 0 when there are none. */
  function MaxOf(lens: seq<nat>, n: nat): nat
    requires n <= |lens|
  {
    if n == 0 then 0
    else
      var m := MaxOf(lens, n - 1);
      if lens[n - 1] > m then lens[n - 1] else m
  }

  /** No length is larger than the largest, and some length reaches it. */
  lemma {:induction false} MaxOfIsMax(lens: seq<nat>, n: nat)
    requires n <= |lens|
    ensures forall r :: 0 <= r < n ==> lens[r] <= MaxOf(lens, n)
    ensures n > 0 ==> exists r :: 0 <= r < n && lens[r] == MaxOf(lens, n)
  {
    if n > 0 {
      MaxOfIsMax(lens, n - 1);
      if n > 1 && MaxOf(lens, n) == MaxOf(lens, n - 1) {
        var r :| 0 <= r < n - 1 && lens[r] == MaxOf(lens, n - 1);
        assert lens[r] == MaxOf(lens, n);
      } else {
        assert lens[n - 1] == MaxOf(lens, n);
      }
    }
  }

  /** parser.py, line 441. */
  function ColumnWidth(g: Grid, c: nat): (w: nat)
    ensures 2 <= w <= MAX_WIDTH
  {
    Capped(MaxOf(Lengths(g, c), |g|))
  }

  /** `min(longest + 2, 50)`. */
  function Capped(longest: nat): nat {
    if longest + 2 < MAX_WIDTH then longest + 2 else MAX_WIDTH
  }

  /** Each column is two characters wider than its longest value, capped at
      50: no value's length plus two exceeds the width unless the width is
      the cap, and some value reaches it unless the cap applies. */
  lemma ColumnWidthFits(g: Grid, c: nat)
    requires |g| > 0 && forall r :: 0 <= r < |g| ==> c < |g[r]|
    ensures ColumnWidth(g, c) <= MAX_WIDTH
    ensures forall r :: 0 <= r < |g| ==>
              |Display(g[r][c].value)| + 2 <= ColumnWidth(g, c) || ColumnWidth(g, c) == MAX_WIDTH
    ensures ColumnWidth(g, c) == MAX_WIDTH ||
            exists r :: 0 <= r < |g| && |Display(g[r][c].value)| + 2 == ColumnWidth(g, c)
  {
    var lens := Lengths(g, c);
    MaxOfIsMax(lens, |g|);
    assert forall r :: 0 <= r < |g| ==> lens[r] == |Display(g[r][c].value)|;
    if ColumnWidth(g, c) < MAX_WIDTH {
      var r :| 0 <= r < |g| && lens[r] == MaxOf(lens, |g|);
      assert |Display(g[r][c].value)| + 2 == ColumnWidth(g, c);
    }
  }

  /** `column_dimensions[...].width` for the first `cols` columns, left to right. */
  function ColumnWidths(g: Grid, cols: nat): (w: seq<nat>)
    ensures |w| == cols
  {
    if cols == 0 then [] else ColumnWidths(g, cols - 1) + [ColumnWidth(g, cols - 1)]
  }

  /** Every column gets the width of its own values. */
  lemma {:induction false} ColumnWidthsAt(g: Grid, cols: nat, c: nat)
    requires c < cols
    ensures ColumnWidths(g, cols)[c] == ColumnWidth(g, c)
  {
    if c < cols - 1 {
      ColumnWidthsAt(g, cols - 1, c);
    }
  }

  // --------------------------------------------------------------- errors

  /** The exceptions `json_to_excel` raises: `data[0]` on an empty row that is
      indented (parser.py, line 283), a sheet larger than Excel allows
      (pandas, line 340), an invalid column count for `get_column_letter`
      (line 355), and an indent level openpyxl's `Alignment` refuses
      (line 397). */
  datatype RenderError = IndentedEmptyRow | SheetTooLarge | InvalidColumnCount | IndentTooLarge

  const MAX_ROWS := 1048576
  const MAX_COLS := 16384
  const MAX_COLUMN_INDEX := 18278
  /** The largest `indent` openpyxl's `Alignment` accepts. */
  const MAX_INDENT := 255

  /** Every row the alignment loop indents (line 397) has a level openpyxl
      accepts. */
  predicate IndentsFit(t: TableJson) {
    forall r :: 0 <= r < |t.table| && !t.table[r].centerContinuous ==> t.table[r].indentLevel <= MAX_INDENT
  }

  /** The first exception raised, in the order the code reaches them. */
  function RenderFailure(t: TableJson): (e: Option<RenderError>)
    ensures e.None? <==>
              (forall i :: 0 <= i < |t.table| ==> !(t.table[i].indentLevel > 0 && |t.table[i].data| == 0)) &&
              |t.table| <= MAX_ROWS && (|t.table| == 0 || t.columnCount <= MAX_COLS) &&
              0 < t.columnCount <= MAX_COLUMN_INDEX && IndentsFit(t)
  {
    if exists r :: 0 <= r < |t.table| && t.table[r].indentLevel > 0 && |t.table[r].data| == 0 then
      Some(IndentedEmptyRow)
    else if |t.table| > MAX_ROWS || (|t.table| > 0 && t.columnCount > MAX_COLS) then Some(SheetTooLarge)
    else if t.columnCount == 0 || t.columnCount > MAX_COLUMN_INDEX then Some(InvalidColumnCount)
    else if !IndentsFit(t) then Some(IndentTooLarge)
    else None
  }

  /** A one-row table indented 256 levels, as a first cell styled
      `padding-left: 2310pt` gives, fails on its indent. */
  lemma DeepIndentFails()
    ensures RenderFailure(TableJson([LogicalRow(["Revenue"], [None], 256, false, 2310)], 1, 1)) == Some(IndentTooLarge)
  {
    var t := TableJson([LogicalRow(["Revenue"], [None], 256, false, 2310)], 1, 1);
    assert !IndentsFit(t) by {
      assert !t.table[0].centerContinuous && t.table[0].indentLevel > MAX_INDENT;
    }
  }

  /** A table the parser produced renders when it fits Excel, has a column
      and indents no row beyond openpyxl's limit, since every parsed row has
      as many entries as there are columns. */
  lemma WellFormedRenders(t: TableJson)
    requires WellFormed(t) && |t.table| <= MAX_ROWS && 0 < t.columnCount <= MAX_COLS && IndentsFit(t)
    ensures RenderFailure(t) == None
  {
  }
}
