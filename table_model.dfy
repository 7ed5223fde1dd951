/** The values exchanged between the stages: the cells read off the HTML
    table, and the JSON-shaped table that the parser hands to the renderer. */
module TableModel {
  import opened Wrappers

  /** A `colspan`, as `int(cell.get('colspan', '1'))` yields it for a
      well-formed table. */
  type Span = n: int | n >= 1 witness 1

  /** One `<td>`: its text (`get_text(strip=True)`), its spans, its raw `style`
      attribute and the `href` of its first `<a>`, if that anchor has one. */
  datatype Cell = Cell(text: string, colspan: Span, rowspan: int, style: string, href: Option<string>)

  /** The `<td>` cells of one `<tr>`, in document order. */
  type Row = seq<Cell>

  /** One entry of the parser's `"table"` list. */
  datatype LogicalRow = LogicalRow(
    data: seq<string>,
    links: seq<Option<string>>,
    indentLevel: nat,
    centerContinuous: bool,
    leftPadding: nat)

  /** The parser's result: `{"table": ..., "column_count": ..., "row_count": ...}`. */
  datatype TableJson = TableJson(table: seq<LogicalRow>, columnCount: nat, rowCount: nat)

  /** Python truthiness of a link: present and not the empty string. */
  predicate Truthy(link: Option<string>) {
    link.Some? && link.value != ""
  }

  /** The shape every parser result has: `row_count` rows, each with exactly
      `column_count` data entries and as many links. */
  predicate WellFormed(t: TableJson) {
    && t.rowCount == |t.table|
    && forall i :: 0 <= i < |t.table| ==>
         |t.table[i].data| == t.columnCount && |t.table[i].links| == t.columnCount
  }

  /** The number of atomic columns a run of cells covers: the sum of their colspans. */
  function Width(cells: Row): nat {
    if cells == [] then 0 else Width(cells[..|cells| - 1]) + cells[|cells| - 1].colspan
  }

  lemma {:induction false} WidthAppend(a: Row, b: Row)
    ensures Width(a + b) == Width(a) + Width(b)
    decreases |b|
  {
    if b != [] {
      assert (a + b)[..|a + b| - 1] == a + b[..|b| - 1];
      WidthAppend(a, b[..|b| - 1]);
    } else {
      assert a + b == a;
    }
  }

  lemma WidthStep(cells: Row, k: nat)
    requires k < |cells|
    ensures Width(cells[..k + 1]) == Width(cells[..k]) + cells[k].colspan
  {
    assert cells[..k + 1][..k] == cells[..k];
  }

  /** Every cell covers at least one atomic column, so a longer prefix is wider. */
  lemma {:induction false} WidthGrows(cells: Row, i: nat, j: nat)
    requires i <= j <= |cells|
    ensures Width(cells[..i]) + (j - i) <= Width(cells[..j])
    decreases j - i
  {
    if i < j {
      WidthGrows(cells, i, j - 1);
      assert cells[..j][..j - 1] == cells[..j - 1];
    }
  }
}
