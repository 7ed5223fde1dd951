/** `parse_html` over the cells already read off the HTML (parser.py,
    lines 56-238): splice row 1's spanning cells into row 2, choose the
    header, build the column boundaries and normalise every emitted row. */
module Parser {
  import opened Wrappers
  import opened TableModel
  import opened Padding
  import opened RowSpans
  import opened Header
  import opened Columns

  /** `ValueError("No table found in HTML")`, and the `IndexError` of
      `rows[header_row_index]` when that row does not exist. */
  datatype ParseError = NoTable | HeaderRowMissing

  /** A row made of one labelled cell that spans several columns: a title
      to be centred across the table (parser.py, lines 168-175). */
  predicate IsCenterContinuous(cells: Row)
    ensures IsCenterContinuous(cells) ==> Width(cells) > 1
  {
    |cells| == 1 && cells[0].text != "" && cells[0].colspan > 1
  }

  /** `first_cell_style`. */
  function FirstStyle(cells: Row): string {
    if cells == [] then "" else cells[0].style
  }

  /** One entry of `table_data` for the cells of one row. */
  function NormalizeRow(bounds: seq<Boundary>, cells: Row): (r: LogicalRow)
    ensures |r.data| == |bounds| && |r.links| == |bounds|
  {
    var pad := ExtractLeftPadding(FirstStyle(cells));
    LogicalRow(GroupTexts(bounds, ExpandTexts(cells)), GroupLinks(bounds, ExpandLinks(cells)),
               IndentLevel(pad, BASE_PADDING, INDENT_STEP), IsCenterContinuous(cells), pad)
  }

  /** The body of the row loop, parser.py, lines 168-229. */
  method BuildRow(bounds: seq<Boundary>, cells: Row) returns (row: LogicalRow)
    ensures row == NormalizeRow(bounds, cells)
  {
    var centerContinuous := false;
    if |cells| == 1 {
      if cells[0].text != "" && cells[0].colspan > 1 {
        centerContinuous := true;
      }
    }
    var texts, links := ExpandCells(cells);
    var data, groupLinks := GroupSlots(bounds, texts, links);
    var style := if cells != [] then cells[0].style else "";
    var leftPadding := ExtractLeftPadding(style);
    var indent := IndentLevel(leftPadding, BASE_PADDING, INDENT_STEP);
    row := LogicalRow(data, groupLinks, indent, centerContinuous, leftPadding);
  }

  /** The cells of row `i`: the spliced row 2 when there is one. */
  function RowCells(rows: seq<Row>, spliced: Option<Row>, i: nat): Row
    requires i < |rows|
  {
    if i == 2 && spliced.Some? then spliced.value else rows[i]
  }

  /** The logical rows emitted for `<tr>` numbers `start` up to `end`, each
      normalised against the header's boundaries. */
  function TableRows(rows: seq<Row>, spliced: Option<Row>, bounds: seq<Boundary>, start: nat, end: nat)
    : (t: seq<LogicalRow>)
    requires start <= end <= |rows|
    ensures |t| == end - start
  {
    seq(end - start, k requires 0 <= k < end - start => NormalizeRow(bounds, RowCells(rows, spliced, start + k)))
  }

  /** The table when the header exists. */
  function BuildTable(rows: seq<Row>, spliced: Option<Row>, bounds: seq<Boundary>, start: nat): (t: TableJson)
    requires start <= |rows|
  {
    var table := TableRows(rows, spliced, bounds, start, |rows|);
    TableJson(table, |bounds|, |table|)
  }

  /** Emitted row `i` is `<tr>` number `start + i`, normalised. */
  lemma TableRowsAt(rows: seq<Row>, spliced: Option<Row>, bounds: seq<Boundary>, start: nat, end: nat, i: nat)
    requires start <= end <= |rows| && i < end - start
    ensures TableRows(rows, spliced, bounds, start, end)[i] == NormalizeRow(bounds, RowCells(rows, spliced, start + i))
  {
  }

  /** Row `i` of a built table is `<tr>` number `start + i` normalised. */
  lemma BuildTableRow(rows: seq<Row>, spliced: Option<Row>, bounds: seq<Boundary>, start: nat, i: nat)
    requires start <= |rows| && i < |BuildTable(rows, spliced, bounds, start).table|
    ensures start + i < |rows|
    ensures BuildTable(rows, spliced, bounds, start).table[i] == NormalizeRow(bounds, RowCells(rows, spliced, start + i))
  {
    TableRowsAt(rows, spliced, bounds, start, |rows|, i);
  }

  /** `parse_html` on the rows of the table. */
  function ParseRows(rows: seq<Row>): (r: Result<TableJson, ParseError>)
  {
    var spliced := SplicedRow2(rows);
    var c := ChooseHeader(rows);
    var hdr := HeaderCells(rows, spliced, c);
    if hdr.None? then Failure(HeaderRowMissing)
    else Success(BuildTable(rows, spliced, Boundaries(hdr.value), c.start))
  }

  /** `parse_html` on the table found in the document (`None` when there is
      no `<table>`), given as its rows of cells. */
  function Parse(doc: Option<seq<Row>>): (r: Result<TableJson, ParseError>)
    ensures r.Success? ==> doc.Some? && WellFormed(r.value)
  {
    if doc.None? then Failure(NoTable)
    else if ParseRows(doc.value).Failure? then ParseRows(doc.value)
    else ParseWellFormed(doc.value); ParseRows(doc.value)
  }

  /** parser.py, lines 66-116. */
  method SpliceRow2(rows: seq<Row>) returns (spliced: Option<Row>)
    ensures spliced == SplicedRow2(rows)
  {
    spliced := None;
    if |rows| > 2 {
      var spans := CollectSpanningCells(rows[1]);
      if spans != [] {
        var newRow := Splice(spans, rows[2]);
        spliced := Some(newRow);
      }
    }
  }

  /** parser.py, lines 119-142. */
  method PickHeader(rows: seq<Row>) returns (c: HeaderChoice)
    ensures c == ChooseHeader(rows)
  {
    if |rows| > 3 && HasBackgroundColor(rows[3]) {
      c := HeaderChoice(1, 1);
    } else if |rows| > 4 && HasBackgroundColor(rows[4]) {
      c := HeaderChoice(2, 1);
    } else {
      var found := FindFirstLabelled(rows);
      var h := found.GetOr(1);
      c := HeaderChoice(h, h);
    }
  }

  /** The row loop of parser.py, lines 159-229. */
  method NormalizeRows(rows: seq<Row>, spliced: Option<Row>, bounds: seq<Boundary>, start: nat)
    returns (table: seq<LogicalRow>)
    requires start <= |rows|
    ensures table == TableRows(rows, spliced, bounds, start, |rows|)
  {
    table := [];
    var i := start;
    while i < |rows|
      invariant start <= i <= |rows| && |table| == i - start
      invariant forall k :: 0 <= k < |table| ==> table[k] == NormalizeRow(bounds, RowCells(rows, spliced, start + k))
    {
      var cells := RowCells(rows, spliced, i);
      var row := BuildRow(bounds, cells);
      table := table + [row];
      i := i + 1;
    }
    TableRowsEq(rows, spliced, bounds, start, table);
  }

  lemma TableRowsEq(rows: seq<Row>, spliced: Option<Row>, bounds: seq<Boundary>, start: nat, table: seq<LogicalRow>)
    requires start <= |rows| && |table| == |rows| - start
    requires forall k :: 0 <= k < |table| ==> table[k] == NormalizeRow(bounds, RowCells(rows, spliced, start + k))
    ensures table == TableRows(rows, spliced, bounds, start, |rows|)
  {
    forall k | 0 <= k < |table|
      ensures table[k] == TableRows(rows, spliced, bounds, start, |rows|)[k]
    {
      TableRowsAt(rows, spliced, bounds, start, |rows|, k);
    }
  }

  /** `parse_html` itself. */
  method ParseHtml(doc: Option<seq<Row>>) returns (r: Result<TableJson, ParseError>)
    ensures r == Parse(doc)
  {
    if doc.None? {
      return Failure(NoTable);
    }
    var rows := doc.value;
    var spliced := SpliceRow2(rows);
    var c := PickHeader(rows);
    var hdr: Row;
    if c.header == 2 && spliced.Some? {
      hdr := spliced.value;
    } else if c.header < |rows| {
      hdr := rows[c.header];
    } else {
      return Failure(HeaderRowMissing);
    }
    var bounds := BuildBoundaries(hdr);
    var table := NormalizeRows(rows, spliced, bounds, c.start);
    return Success(TableJson(table, |bounds|, |table|));
  }

  /** Parsing fails exactly when there is no table, or when the header row
      is missing: no rows at all, or a single unlabelled row. */
  lemma ParseFailsIff(doc: Option<seq<Row>>)
    ensures Parse(doc) == Failure(NoTable) <==> doc.None?
    ensures Parse(doc) == Failure(HeaderRowMissing) <==>
              doc.Some? && (|doc.value| == 0 || (|doc.value| == 1 && !Labelled(doc.value[0])))
  {
    if doc.Some? {
      HeaderRowExists(doc.value);
    }
  }

  /** A successful parse is well formed: one logical column per header cell,
      every row with exactly `column_count` data entries and links, and one
      row for every `<tr>` from the start index on. */
  lemma ParseWellFormed(rows: seq<Row>)
    requires ParseRows(rows).Success?
    ensures WellFormed(ParseRows(rows).value)
    ensures ParseRows(rows).value.columnCount
            == |HeaderCells(rows, SplicedRow2(rows), ChooseHeader(rows)).value|
    ensures ParseRows(rows).value.rowCount == |rows| - ChooseHeader(rows).start
  {
    var spliced := SplicedRow2(rows);
    var c := ChooseHeader(rows);
    var bounds := Boundaries(HeaderCells(rows, spliced, c).value);
    var t := BuildTable(rows, spliced, bounds, c.start);
    assert ParseRows(rows) == Success(t);
    forall i | 0 <= i < |t.table|
      ensures |t.table[i].data| == t.columnCount && |t.table[i].links| == t.columnCount
    {
      BuildTableRow(rows, spliced, bounds, c.start, i);
    }
  }

  /** A normalised row, in terms of the cells themselves: logical column `k`
      joins with single spaces the non-empty texts of the cells whose first
      slot lies in boundary `k`, and takes the resolved link of the leftmost
      such cell that has one. */
  lemma NormalizeRowFromCells(bounds: seq<Boundary>, cells: Row, k: nat)
    requires k < |bounds|
    ensures NormalizeRow(bounds, cells).data[k]
            == Strings.JoinSpaced(TextsStartingIn(cells, bounds[k].start, bounds[k].end))
    ensures NormalizeRow(bounds, cells).links[k] == CellLinkIn(cells, bounds[k].start, bounds[k].end)
  {
    WindowTexts(cells, bounds[k].start, bounds[k].end);
    WindowLink(cells, bounds[k].start, bounds[k].end);
  }
}
