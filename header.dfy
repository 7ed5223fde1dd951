/** Choosing the row whose colspans define the logical columns, and the first
    row to emit (parser.py, lines 47-54 and 118-148). */
module Header {
  import opened Wrappers
  import opened Strings
  import opened TableModel

  const BACKGROUND_COLOR := "background-color"

  /** `has_background_color`: some `<td>` of the row mentions
      `background-color` anywhere in its `style` attribute. */
  function HasBackgroundColor(row: Row): (r: bool)
    ensures r <==> exists i :: 0 <= i < |row| && HasSubstring(row[i].style, BACKGROUND_COLOR)
  {
    if row == [] then false
    else if HasSubstring(row[0].style, BACKGROUND_COLOR) then true
    else
      var r := HasBackgroundColor(row[1..]);
      assert forall i :: 1 <= i < |row| ==> row[i] == row[1..][i - 1];
      r
  }

  /** A row whose first `<td>` has non-empty text. */
  predicate Labelled(row: Row) {
    |row| > 0 && row[0].text != ""
  }

  /** The first labelled row at or after index `i`, as the search loop of
      parser.py, lines 131-137, finds it. */
  function FirstLabelledFrom(rows: seq<Row>, i: nat): (r: Option<nat>)
    requires i <= |rows|
    ensures r.Some? ==> i <= r.value < |rows| && Labelled(rows[r.value])
                        && forall j :: i <= j < r.value ==> !Labelled(rows[j])
    ensures r.None? ==> forall j :: i <= j < |rows| ==> !Labelled(rows[j])
    decreases |rows| - i
  {
    if i == |rows| then None
    else if Labelled(rows[i]) then Some(i)
    else FirstLabelledFrom(rows, i + 1)
  }

  /** The search loop itself. */
  method FindFirstLabelled(rows: seq<Row>) returns (r: Option<nat>)
    ensures r == FirstLabelledFrom(rows, 0)
  {
    var i := 0;
    while i < |rows|
      invariant 0 <= i <= |rows|
      invariant FirstLabelledFrom(rows, i) == FirstLabelledFrom(rows, 0)
    {
      if |rows[i]| > 0 && rows[i][0].text != "" {
        return Some(i);
      }
      i := i + 1;
    }
    return None;
  }

  /** `header_row_index` and `start_processing_index`. */
  datatype HeaderChoice = HeaderChoice(header: nat, start: nat)

  /** The heuristic of parser.py, lines 119-142: a `background-color` on
      row 3 or else row 4 marks a styled table with its header at row 1 or
      row 2 and data from row 1; otherwise the first labelled row is both
      the header and the first row emitted, and row 1 is the fallback. */
  function ChooseHeader(rows: seq<Row>): (c: HeaderChoice)
    ensures c.start <= c.header
    ensures |rows| > 3 && HasBackgroundColor(rows[3]) ==> c == HeaderChoice(1, 1)
    ensures |rows| > 4 && !HasBackgroundColor(rows[3]) && HasBackgroundColor(rows[4]) ==> c == HeaderChoice(2, 1)
    ensures !(|rows| > 3 && HasBackgroundColor(rows[3])) && !(|rows| > 4 && HasBackgroundColor(rows[4])) ==>
              && c.start == c.header
              && (|| (c.header < |rows| && Labelled(rows[c.header])
                      && forall j :: 0 <= j < c.header ==> !Labelled(rows[j]))
                  || (c.header == 1 && forall j :: 0 <= j < |rows| ==> !Labelled(rows[j])))
  {
    if |rows| > 3 && HasBackgroundColor(rows[3]) then HeaderChoice(1, 1)
    else if |rows| > 4 && HasBackgroundColor(rows[4]) then HeaderChoice(2, 1)
    else
      var h := FirstLabelledFrom(rows, 0).GetOr(1);
      HeaderChoice(h, h)
  }

  /** `rows[header_row_index]` exists exactly when there are at least two
      rows or the only row is labelled; otherwise parser.py, line 148,
      raises `IndexError`. */
  lemma HeaderRowExists(rows: seq<Row>)
    ensures ChooseHeader(rows).header < |rows| <==> |rows| >= 2 || (|rows| == 1 && Labelled(rows[0]))
  {
    var c := ChooseHeader(rows);
    if |rows| == 1 && !Labelled(rows[0]) {
      assert FirstLabelledFrom(rows, 0).None?;
    }
  }

  /** The cells that define the columns (parser.py, lines 145-148): the
      spliced row 2 when row 2 is the header and a splice happened. */
  function HeaderCells(rows: seq<Row>, spliced: Option<Row>, c: HeaderChoice): (r: Option<Row>)
    requires spliced.Some? ==> |rows| > 2
    ensures r.Some? <==> c.header < |rows|
    ensures c.header == 2 && spliced.Some? ==> r == spliced
    ensures !(c.header == 2 && spliced.Some?) && c.header < |rows| ==> r == Some(rows[c.header])
  {
    if c.header == 2 && spliced.Some? then spliced
    else if c.header < |rows| then Some(rows[c.header])
    else None
  }
}
