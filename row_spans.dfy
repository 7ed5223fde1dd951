/** The first stage of `parse_html`: row-1 cells with `rowspan > 1` are
    spliced into row 2 at the atomic columns where they start. */
module RowSpans {
  import opened Wrappers
  import opened TableModel

  /** A row-1 cell that spans down into row 2, with the atomic column where it starts. */
  datatype SpanningCell = SpanningCell(position: nat, cell: Cell)

  /** The `rowspan_cells` list built from row 1: every cell with `rowspan > 1`,
      left to right, with the sum of the colspans of the cells before it. */
  function SpanningCells(row: Row): seq<SpanningCell>
  {
    if row == [] then []
    else
      var init := row[..|row| - 1];
      var last := row[|row| - 1];
      SpanningCells(init) + (if last.rowspan > 1 then [SpanningCell(Width(init), last)] else [])
  }

  /** The cells of the row with `rowspan > 1`, in order. */
  function Spanning(row: Row): (r: Row)
    ensures |r| <= |row|
  {
    if row == [] then []
    else Spanning(row[..|row| - 1]) + (if row[|row| - 1].rowspan > 1 then [row[|row| - 1]] else [])
  }

  /** The cells of the recorded spanning cells, in order. */
  function CellsOf(spans: seq<SpanningCell>): Row
  {
    if spans == [] then [] else [spans[0].cell] + CellsOf(spans[1..])
  }

  lemma {:induction false} CellsOfSnoc(spans: seq<SpanningCell>, x: SpanningCell)
    ensures CellsOf(spans + [x]) == CellsOf(spans) + [x.cell]
  {
    if spans != [] {
      CellsOfSnoc(spans[1..], x);
      assert (spans + [x])[1..] == spans[1..] + [x];
    }
  }

  /** The loop over row 1 (parser.py, lines 77-84), with `current_pos` kept as
      the width of the cells already seen. */
  method CollectSpanningCells(row: Row) returns (spans: seq<SpanningCell>)
    ensures spans == SpanningCells(row)
  {
    spans := [];
    var currentPos := 0;
    var i := 0;
    while i < |row|
      invariant 0 <= i <= |row|
      invariant currentPos == Width(row[..i])
      invariant spans == SpanningCells(row[..i])
    {
      var cell := row[i];
      assert row[..i + 1][..i] == row[..i];
      if cell.rowspan > 1 {
        spans := spans + [SpanningCell(currentPos, cell)];
      }
      currentPos := currentPos + cell.colspan;
      i := i + 1;
    }
    assert row[..|row|] == row;
  }

  /** The recorded cells are exactly the row's spanning cells, in order. */
  lemma {:induction false} SpanningCellsAreSpanning(row: Row)
    ensures CellsOf(SpanningCells(row)) == Spanning(row)
  {
    if row != [] {
      var init := row[..|row| - 1];
      SpanningCellsAreSpanning(init);
      var before := SpanningCells(init);
      if row[|row| - 1].rowspan > 1 {
        CellsOfSnoc(before, SpanningCell(Width(init), row[|row| - 1]));
      } else {
        assert SpanningCells(row) == before + [] == before;
        assert Spanning(row) == Spanning(init) + [] == Spanning(init);
      }
    }
  }

  /** Each recorded position is the sum of the colspans of the row-1 cells to
      the left of the recorded cell. */
  lemma {:induction false} SpanningCellsAtPrefixSums(row: Row)
    ensures forall k :: 0 <= k < |SpanningCells(row)| ==>
              exists i :: 0 <= i < |row| && row[i].rowspan > 1
                          && SpanningCells(row)[k] == SpanningCell(Width(row[..i]), row[i])
  {
    if row != [] {
      var init := row[..|row| - 1];
      SpanningCellsAtPrefixSums(init);
      var before := SpanningCells(init);
      var spans := SpanningCells(row);
      forall k | 0 <= k < |spans|
        ensures exists i :: 0 <= i < |row| && row[i].rowspan > 1
                            && spans[k] == SpanningCell(Width(row[..i]), row[i])
      {
        if k < |before| {
          assert spans[k] == before[k];
          var i :| 0 <= i < |init| && init[i].rowspan > 1
                   && before[k] == SpanningCell(Width(init[..i]), init[i]);
          assert init[..i] == row[..i] && init[i] == row[i];
          assert spans[k] == SpanningCell(Width(row[..i]), row[i]);
        } else {
          var i := |row| - 1;
          assert row[..i] == init;
          assert row[i].rowspan > 1 && spans[k] == SpanningCell(Width(row[..i]), row[i]);
        }
      }
    } else {
      assert SpanningCells(row) == [];
    }
  }

  /** The recorded cells' ranges of atomic columns run left to right without
      overlapping, and end within the row. */
  lemma {:induction false} SpanningCellsOrdered(row: Row)
    ensures forall k :: 0 <= k < |SpanningCells(row)| ==>
              SpanningCells(row)[k].position + SpanningCells(row)[k].cell.colspan <= Width(row)
    ensures forall k :: 0 < k < |SpanningCells(row)| ==>
              SpanningCells(row)[k - 1].position + SpanningCells(row)[k - 1].cell.colspan
                <= SpanningCells(row)[k].position
  {
    if row != [] {
      var init := row[..|row| - 1];
      SpanningCellsOrdered(init);
      var before := SpanningCells(init);
      var spans := SpanningCells(row);
      assert forall k :: 0 <= k < |before| ==> spans[k] == before[k];
    }
  }

  /** One place of the new row 2: a cell of the old row 2, or a row-1 cell
      that spans down into it. */
  datatype Placed = Row2Cell(cell: Cell) | SpannedIn(cell: Cell)

  /** The interleaving of parser.py, lines 92-111, as a function of the
      loops' state: `k` spanning cells and `idx` row-2 cells are placed and
      `used` atomic columns are filled. A row-2 cell is taken while `used` is
      short of the next spanning cell's position, or once every spanning cell
      is placed; otherwise the next spanning cell is inserted. */
  function Placement(spans: seq<SpanningCell>, row2: Row, k: nat, idx: nat, used: int): seq<Placed>
    requires k <= |spans| && idx <= |row2|
    decreases |spans| - k + |row2| - idx
  {
    if idx < |row2| && (k == |spans| || used < spans[k].position) then
      [Row2Cell(row2[idx])] + Placement(spans, row2, k, idx + 1, used + row2[idx].colspan)
    else if k < |spans| then
      [SpannedIn(spans[k].cell)] + Placement(spans, row2, k + 1, idx, used + spans[k].cell.colspan)
    else []
  }

  /** The cells of a placement, in order. */
  function CellsPlaced(p: seq<Placed>): (r: Row)
    ensures |r| == |p| && forall i :: 0 <= i < |p| ==> r[i] == p[i].cell
  {
    seq(|p|, i requires 0 <= i < |p| => p[i].cell)
  }

  /** The new row 2 (`new_row_2_cells`). */
  function Spliced(spans: seq<SpanningCell>, row2: Row): Row
  {
    CellsPlaced(Placement(spans, row2, 0, 0, 0))
  }

  /** The places of `p` that hold old row-2 cells, in order. */
  function OldCells(p: seq<Placed>): Row
  {
    if p == [] then [] else (if p[0].Row2Cell? then [p[0].cell] else []) + OldCells(p[1..])
  }

  /** The places of `p` that hold spanning cells, in order. */
  function InsertedCells(p: seq<Placed>): Row
  {
    if p == [] then [] else (if p[0].SpannedIn? then [p[0].cell] else []) + InsertedCells(p[1..])
  }

  lemma SelectCons(x: Placed, p: seq<Placed>)
    ensures OldCells([x] + p) == (if x.Row2Cell? then [x.cell] else []) + OldCells(p)
    ensures InsertedCells([x] + p) == (if x.SpannedIn? then [x.cell] else []) + InsertedCells(p)
  {
    assert ([x] + p)[1..] == p;
  }

  lemma {:induction false} CellsOfFront(spans: seq<SpanningCell>, k: nat)
    requires k < |spans|
    ensures CellsOf(spans[k..]) == [spans[k].cell] + CellsOf(spans[k + 1..])
  {
    assert spans[k..][1..] == spans[k + 1..];
  }

  /** Every cell is placed exactly once: the new row is as long as row 2 and
      the spanning cells together. */
  lemma {:induction false} PlacementLength(spans: seq<SpanningCell>, row2: Row, k: nat, idx: nat, used: int)
    requires k <= |spans| && idx <= |row2|
    ensures |Placement(spans, row2, k, idx, used)| == (|row2| - idx) + (|spans| - k)
    decreases |spans| - k + |row2| - idx
  {
    if idx < |row2| && (k == |spans| || used < spans[k].position) {
      PlacementLength(spans, row2, k, idx + 1, used + row2[idx].colspan);
    } else if k < |spans| {
      PlacementLength(spans, row2, k + 1, idx, used + spans[k].cell.colspan);
    }
  }

  /** The placement keeps every remaining row-2 cell, in its original order. */
  lemma {:induction false} PlacementKeepsRow2(spans: seq<SpanningCell>, row2: Row, k: nat, idx: nat, used: int)
    requires k <= |spans| && idx <= |row2|
    ensures OldCells(Placement(spans, row2, k, idx, used)) == row2[idx..]
    decreases |spans| - k + |row2| - idx
  {
    if idx < |row2| && (k == |spans| || used < spans[k].position) {
      PlacementKeepsRow2(spans, row2, k, idx + 1, used + row2[idx].colspan);
      OldAfterRow2(Placement(spans, row2, k, idx, used), row2, idx,
                   Placement(spans, row2, k, idx + 1, used + row2[idx].colspan));
    } else if k < |spans| {
      PlacementKeepsRow2(spans, row2, k + 1, idx, used + spans[k].cell.colspan);
      OldAfterSpanning(Placement(spans, row2, k, idx, used), spans[k].cell,
                       Placement(spans, row2, k + 1, idx, used + spans[k].cell.colspan), row2[idx..]);
    }
  }

  lemma OldAfterRow2(p: seq<Placed>, row2: Row, idx: nat, rest: seq<Placed>)
    requires idx < |row2| && p == [Row2Cell(row2[idx])] + rest && OldCells(rest) == row2[idx + 1..]
    ensures OldCells(p) == row2[idx..]
  {
    SelectCons(Row2Cell(row2[idx]), rest);
    assert row2[idx..] == [row2[idx]] + row2[idx + 1..];
  }

  lemma OldAfterSpanning(p: seq<Placed>, x: Cell, rest: seq<Placed>, cells: Row)
    requires p == [SpannedIn(x)] + rest && OldCells(rest) == cells
    ensures OldCells(p) == cells
  {
    SelectCons(SpannedIn(x), rest);
  }

  /** The placement holds every remaining spanning cell, in its original order. */
  lemma {:induction false} PlacementKeepsSpanning(spans: seq<SpanningCell>, row2: Row, k: nat, idx: nat, used: int)
    requires k <= |spans| && idx <= |row2|
    ensures InsertedCells(Placement(spans, row2, k, idx, used)) == CellsOf(spans[k..])
    decreases |spans| - k + |row2| - idx
  {
    if idx < |row2| && (k == |spans| || used < spans[k].position) {
      PlacementKeepsSpanning(spans, row2, k, idx + 1, used + row2[idx].colspan);
      InsertedAfterRow2(Placement(spans, row2, k, idx, used), row2[idx],
                        Placement(spans, row2, k, idx + 1, used + row2[idx].colspan), CellsOf(spans[k..]));
    } else if k < |spans| {
      PlacementKeepsSpanning(spans, row2, k + 1, idx, used + spans[k].cell.colspan);
      InsertedAfterSpanning(Placement(spans, row2, k, idx, used), spans, k,
                            Placement(spans, row2, k + 1, idx, used + spans[k].cell.colspan));
    } else {
      assert spans[k..] == [];
    }
  }

  lemma InsertedAfterRow2(p: seq<Placed>, x: Cell, rest: seq<Placed>, cells: Row)
    requires p == [Row2Cell(x)] + rest && InsertedCells(rest) == cells
    ensures InsertedCells(p) == cells
  {
    SelectCons(Row2Cell(x), rest);
  }

  lemma InsertedAfterSpanning(p: seq<Placed>, spans: seq<SpanningCell>, k: nat, rest: seq<Placed>)
    requires k < |spans| && p == [SpannedIn(spans[k].cell)] + rest
    requires InsertedCells(rest) == CellsOf(spans[k + 1..])
    ensures InsertedCells(p) == CellsOf(spans[k..])
  {
    SelectCons(SpannedIn(spans[k].cell), rest);
    CellsOfFront(spans, k);
  }

  /** The whole splice: the new row 2 is an interleaving of the old row 2 and
      the spanning cells, as long as both together. */
  lemma SpliceInterleaves(spans: seq<SpanningCell>, row2: Row)
    ensures |Spliced(spans, row2)| == |row2| + |spans|
    ensures OldCells(Placement(spans, row2, 0, 0, 0)) == row2
    ensures InsertedCells(Placement(spans, row2, 0, 0, 0)) == CellsOf(spans)
  {
    PlacementLength(spans, row2, 0, 0, 0);
    PlacementKeepsRow2(spans, row2, 0, 0, 0);
    PlacementKeepsSpanning(spans, row2, 0, 0, 0);
    assert row2[0..] == row2 && spans[0..] == spans;
  }

  /** The new row 2, when there are more than two rows and row 1 has a
      spanning cell (`modified_row_2_cells`); otherwise `None`. */
  function SplicedRow2(rows: seq<Row>): (r: Option<Row>)
    ensures r.Some? ==> |rows| > 2 && SpanningCells(rows[1]) != []
  {
    if |rows| > 2 && SpanningCells(rows[1]) != [] then
      Some(Spliced(SpanningCells(rows[1]), rows[2]))
    else None
  }

  /** The splice loops of parser.py, lines 92-111. */
  method Splice(spans: seq<SpanningCell>, row2: Row) returns (newRow: Row)
    ensures newRow == Spliced(spans, row2)
  {
    ghost var goal := Placement(spans, row2, 0, 0, 0);
    ghost var placed: seq<Placed> := [];
    newRow := [];
    var idx := 0;
    var used := 0;
    var k := 0;
    while k < |spans|
      invariant 0 <= k <= |spans| && 0 <= idx <= |row2|
      invariant placed + Placement(spans, row2, k, idx, used) == goal
      invariant newRow == CellsPlaced(placed)
    {
      var pos := spans[k].position;
      while used < pos && idx < |row2|
        invariant 0 <= idx <= |row2|
        invariant placed + Placement(spans, row2, k, idx, used) == goal
        invariant newRow == CellsPlaced(placed)
      {
        TakeCell(placed, Row2Cell(row2[idx]), Placement(spans, row2, k, idx + 1, used + row2[idx].colspan));
        placed := placed + [Row2Cell(row2[idx])];
        newRow := newRow + [row2[idx]];
        used := used + row2[idx].colspan;
        idx := idx + 1;
      }
      TakeCell(placed, SpannedIn(spans[k].cell), Placement(spans, row2, k + 1, idx, used + spans[k].cell.colspan));
      placed := placed + [SpannedIn(spans[k].cell)];
      newRow := newRow + [spans[k].cell];
      used := used + spans[k].cell.colspan;
      k := k + 1;
    }
    while idx < |row2|
      invariant 0 <= idx <= |row2|
      invariant placed + Placement(spans, row2, k, idx, used) == goal
      invariant newRow == CellsPlaced(placed)
    {
      TakeCell(placed, Row2Cell(row2[idx]), Placement(spans, row2, k, idx + 1, used + row2[idx].colspan));
      placed := placed + [Row2Cell(row2[idx])];
      newRow := newRow + [row2[idx]];
      used := used + row2[idx].colspan;
      idx := idx + 1;
    }
    assert placed == goal;
  }

  /** Moving one place from the pending placement to the placed prefix. */
  lemma TakeCell(placed: seq<Placed>, x: Placed, rest: seq<Placed>)
    ensures (placed + [x]) + rest == placed + ([x] + rest)
    ensures CellsPlaced(placed + [x]) == CellsPlaced(placed) + [x.cell]
  {
  }
}
