/** Column boundaries from the header's colspans, the expansion of a row into
    atomic slots, and the regrouping of slots into logical columns
    (parser.py, lines 150-156 and 177-217). */
module Columns {
  import opened Wrappers
  import opened Strings
  import opened TableModel

  // ---------------------------------------------------------------- boundaries

  /** A half-open range `[start, end)` of atomic columns, one entry of `column_spans`. */
  datatype Boundary = Boundary(start: nat, end: nat)

  /** `column_spans` for the header cells `hdr`: each cell claims the next
      `colspan` atomic columns. */
  function Boundaries(hdr: Row): (b: seq<Boundary>)
    ensures |b| == |hdr|
  {
    if hdr == [] then []
    else
      var init := hdr[..|hdr| - 1];
      Boundaries(init) + [Boundary(Width(init), Width(init) + hdr[|hdr| - 1].colspan)]
  }

  /** The loop of parser.py, lines 151-156, with its running `current_pos`. */
  method BuildBoundaries(hdr: Row) returns (spans: seq<Boundary>)
    ensures spans == Boundaries(hdr)
  {
    spans := [];
    var pos := 0;
    var i := 0;
    while i < |hdr|
      invariant 0 <= i <= |hdr|
      invariant pos == Width(hdr[..i]) && spans == Boundaries(hdr[..i])
    {
      assert hdr[..i + 1][..i] == hdr[..i];
      spans := spans + [Boundary(pos, pos + hdr[i].colspan)];
      pos := pos + hdr[i].colspan;
      i := i + 1;
    }
    assert hdr[..i] == hdr;
  }

  /** Boundary `k` starts at the width of the header cells before it and is
      as wide as header cell `k`. */
  lemma {:induction false} BoundaryAt(hdr: Row, k: nat)
    requires k < |hdr|
    ensures Boundaries(hdr)[k] == Boundary(Width(hdr[..k]), Width(hdr[..k]) + hdr[k].colspan)
    decreases |hdr|
  {
    var n := |hdr| - 1;
    var init := hdr[..n];
    if k == n {
      assert init == hdr[..k];
    } else {
      BoundaryAt(init, k);
      assert init[..k] == hdr[..k] && init[k] == hdr[k];
    }
  }

  /** The boundaries partition `[0, Σ colspan)`: the first starts at 0, each
      ends where the next starts, the last ends at the header's width, and
      each is as wide as its header cell. */
  lemma BoundariesPartition(hdr: Row)
    ensures hdr != [] ==> Boundaries(hdr)[0].start == 0 && Boundaries(hdr)[|hdr| - 1].end == Width(hdr)
    ensures forall k :: 0 <= k < |hdr| ==> Boundaries(hdr)[k].end - Boundaries(hdr)[k].start == hdr[k].colspan
    ensures forall k :: 0 <= k < |hdr| - 1 ==> Boundaries(hdr)[k].end == Boundaries(hdr)[k + 1].start
  {
    var b := Boundaries(hdr);
    forall k | 0 <= k < |hdr|
      ensures b[k].end - b[k].start == hdr[k].colspan
    {
      BoundaryAt(hdr, k);
    }
    forall k | 0 <= k < |hdr| - 1
      ensures b[k].end == b[k + 1].start
    {
      BoundaryAt(hdr, k);
      BoundaryAt(hdr, k + 1);
      WidthStep(hdr, k);
    }
    if hdr != [] {
      BoundaryAt(hdr, 0);
      BoundaryAt(hdr, |hdr| - 1);
      assert hdr[..0] == [];
      WidthStep(hdr, |hdr| - 1);
      assert hdr[..|hdr|] == hdr;
    }
  }

  /** Every atomic column of the header's width lies in exactly one boundary. */
  lemma ColumnInOneBoundary(hdr: Row, col: nat)
    requires col < Width(hdr)
    ensures exists k :: 0 <= k < |hdr| && Boundaries(hdr)[k].start <= col < Boundaries(hdr)[k].end
    ensures forall k, l ::
              (&& 0 <= k < |hdr| && 0 <= l < |hdr|
               && Boundaries(hdr)[k].start <= col < Boundaries(hdr)[k].end
               && Boundaries(hdr)[l].start <= col < Boundaries(hdr)[l].end) ==> k == l
  {
    BoundariesPartition(hdr);
    var b := Boundaries(hdr);
    // the last boundary whose start is at or before `col`
    var k := 0;
    while k + 1 < |hdr| && b[k + 1].start <= col
      invariant 0 <= k < |hdr| && b[k].start <= col
      decreases |hdr| - k
    {
      k := k + 1;
    }
    assert b[k].start <= col < b[k].end;
    forall k, l | 0 <= k < l < |hdr|
      ensures b[k].end <= b[l].start
    {
      BoundaryAt(hdr, k);
      BoundaryAt(hdr, l);
      WidthStep(hdr, k);
      WidthGrows(hdr, k + 1, l);
    }
  }

  // ----------------------------------------------------------------- expansion

  /** Python truthiness of a link after `link_tag.get('href')`: a missing or
      empty `href` gives no link, and a site-relative one is made absolute
      (parser.py, lines 187-193). */
  const SEC_BASE := "https://www.sec.gov"

  function ResolveLink(href: Option<string>): (r: Option<string>)
    ensures r.None? <==> !Truthy(href)
    ensures Truthy(href) && href.value[0] == '/' ==> r == Some(SEC_BASE + href.value)
    ensures Truthy(href) && href.value[0] != '/' ==> r == href
  {
    if !Truthy(href) then None
    else if href.value[0] == '/' then Some(SEC_BASE + href.value)
    else href
  }

  /** A resolved link is truthy and no longer relative, so resolving again
      changes nothing. */
  lemma ResolveLinkIdempotent(href: Option<string>)
    ensures ResolveLink(href).Some? ==> Truthy(ResolveLink(href)) && ResolveLink(href).value[0] != '/'
    ensures ResolveLink(ResolveLink(href)) == ResolveLink(href)
  {
    if Truthy(href) && href.value[0] == '/' {
      assert (SEC_BASE + href.value)[0] == 'h';
    }
  }

  /** The text slots one cell expands to: its text, then `colspan - 1` empty strings. */
  function TextBlock(cell: Cell): (r: seq<string>)
    ensures |r| == cell.colspan
  {
    [cell.text] + Repeat("", cell.colspan - 1)
  }

  /** The link slots one cell expands to: its resolved link, then `colspan - 1` `None`s. */
  function LinkBlock(cell: Cell): (r: seq<Option<string>>)
    ensures |r| == cell.colspan
  {
    [ResolveLink(cell.href)] + Repeat(None, cell.colspan - 1)
  }

  /** `expanded_cells`: the text blocks of all cells, left to right. */
  function ExpandTexts(cells: Row): (slots: seq<string>)
    ensures |slots| == Width(cells)
  {
    if cells == [] then [] else ExpandTexts(cells[..|cells| - 1]) + TextBlock(cells[|cells| - 1])
  }

  /** `cell_links`: the link blocks of all cells, left to right. */
  function ExpandLinks(cells: Row): (slots: seq<Option<string>>)
    ensures |slots| == Width(cells)
  {
    if cells == [] then [] else ExpandLinks(cells[..|cells| - 1]) + LinkBlock(cells[|cells| - 1])
  }

  /** The expansion loop of parser.py, lines 182-200. */
  method ExpandCells(cells: Row) returns (texts: seq<string>, links: seq<Option<string>>)
    ensures texts == ExpandTexts(cells) && links == ExpandLinks(cells)
  {
    texts, links := [], [];
    var i := 0;
    while i < |cells|
      invariant 0 <= i <= |cells|
      invariant texts == ExpandTexts(cells[..i]) && links == ExpandLinks(cells[..i])
    {
      var cell := cells[i];
      ghost var doneTexts, doneLinks := texts, links;
      texts := texts + [cell.text];
      links := links + [ResolveLink(cell.href)];
      var j := 0;
      while j < cell.colspan - 1
        invariant 0 <= j <= cell.colspan - 1
        invariant texts == doneTexts + [cell.text] + Repeat("", j)
        invariant links == doneLinks + [ResolveLink(cell.href)] + Repeat(None, j)
      {
        AppendAssoc(doneTexts + [cell.text], Repeat("", j), [""]);
        AppendAssoc(doneLinks + [ResolveLink(cell.href)], Repeat(None, j), [None]);
        texts := texts + [""];
        links := links + [None];
        j := j + 1;
      }
      AppendAssoc(doneTexts, [cell.text], Repeat("", j));
      AppendAssoc(doneLinks, [ResolveLink(cell.href)], Repeat(None, j));
      assert cells[..i + 1][..i] == cells[..i] && cells[..i + 1][i] == cell;
      i := i + 1;
    }
    assert cells[..i] == cells;
  }

  lemma AppendAssoc<T>(a: seq<T>, b: seq<T>, c: seq<T>)
    ensures a + b + c == a + (b + c)
  {
  }

  /** The slots of cell `k` end within the expanded row. */
  lemma {:induction false} CellSlots(cells: Row, k: nat)
    requires k < |cells|
    ensures Width(cells[..k]) + cells[k].colspan <= Width(cells)
  {
    WidthStep(cells, k);
    WidthGrows(cells, k + 1, |cells|);
    assert cells[..|cells|] == cells;
  }

  /** Cell `k` occupies the text slots `[Width(cells[..k]), Width(cells[..k]) + colspan)`:
      its text in the first, empty strings in the rest. */
  lemma {:induction false} ExpandTextsAt(cells: Row, k: nat)
    requires k < |cells|
    ensures Width(cells[..k]) + cells[k].colspan <= Width(cells)
    ensures ExpandTexts(cells)[Width(cells[..k])..Width(cells[..k]) + cells[k].colspan] == TextBlock(cells[k])
    decreases |cells|
  {
    var n := |cells| - 1;
    var init := cells[..n];
    var pre, block := ExpandTexts(init), TextBlock(cells[n]);
    var lo, hi := Width(cells[..k]), Width(cells[..k]) + cells[k].colspan;
    assert ExpandTexts(cells) == pre + block;
    CellSlots(cells, k);
    var want := TextBlock(cells[k]);
    if k == n {
      assert init == cells[..k];
      AppendSlice(pre, block, lo, hi, want);
    } else {
      ExpandTextsAt(init, k);
      assert init[..k] == cells[..k] && init[k] == cells[k];
      AppendSlice(pre, block, lo, hi, want);
    }
  }

  /** Cell `k` occupies the same link slots: its resolved link in the first,
      `None` in the rest. */
  lemma {:induction false} ExpandLinksAt(cells: Row, k: nat)
    requires k < |cells|
    ensures Width(cells[..k]) + cells[k].colspan <= Width(cells)
    ensures ExpandLinks(cells)[Width(cells[..k])..Width(cells[..k]) + cells[k].colspan] == LinkBlock(cells[k])
    decreases |cells|
  {
    var n := |cells| - 1;
    var init := cells[..n];
    var pre, block := ExpandLinks(init), LinkBlock(cells[n]);
    var lo, hi := Width(cells[..k]), Width(cells[..k]) + cells[k].colspan;
    assert ExpandLinks(cells) == pre + block;
    CellSlots(cells, k);
    var want := LinkBlock(cells[k]);
    if k == n {
      assert init == cells[..k];
      AppendSlice(pre, block, lo, hi, want);
    } else {
      ExpandLinksAt(init, k);
      assert init[..k] == cells[..k] && init[k] == cells[k];
      AppendSlice(pre, block, lo, hi, want);
    }
  }

  /** A slice of `a + b` that lies inside `a`, or is exactly `b`. */
  lemma AppendSlice<T>(a: seq<T>, b: seq<T>, lo: nat, hi: nat, want: seq<T>)
    requires (lo <= hi <= |a| && a[lo..hi] == want) || (lo == |a| && hi == |a| + |b| && b == want)
    ensures (a + b)[lo..hi] == want
  {
  }

  // ------------------------------------------------------------------ grouping

  /** The slots of `slots` inside `b` (`range(start, end)` with `j < len`). */
  function Window<T>(slots: seq<T>, b: Boundary): (w: seq<T>)
    ensures b.start <= b.end <= |slots| ==> w == slots[b.start..b.end]
    ensures b.start >= |slots| ==> w == []
  {
    var lo := if b.start < |slots| then b.start else |slots|;
    var hi := if b.end < |slots| then b.end else |slots|;
    if lo <= hi then slots[lo..hi] else []
  }

  /** One entry of `grouped_data` (parser.py, lines 207-209). */
  function GroupText(slots: seq<string>, b: Boundary): string {
    JoinSpaced(NonEmpty(Window(slots, b)))
  }

  /** The first truthy link among positions `j .. end - 1` that exist,
      as the loop of parser.py, lines 212-216, looks for it. */
  function FirstLinkFrom(links: seq<Option<string>>, j: nat, end: nat): (r: Option<string>)
    decreases end - j
  {
    if j >= end then None
    else if j < |links| && Truthy(links[j]) then links[j]
    else FirstLinkFrom(links, j + 1, end)
  }

  /** The link found is the first truthy one in range; none is found only
      when no link in range is truthy. */
  lemma {:induction false} FirstLinkFromFinds(links: seq<Option<string>>, j: nat, end: nat)
    ensures var r := FirstLinkFrom(links, j, end);
            r.Some? ==> exists i :: j <= i < end && i < |links| && links[i] == r && Truthy(r)
                                    && forall h :: j <= h < i ==> !Truthy(links[h])
    ensures var r := FirstLinkFrom(links, j, end);
            r.None? <==> forall i :: j <= i < end && i < |links| ==> !Truthy(links[i])
    decreases end - j
  {
    if j < end && !(j < |links| && Truthy(links[j])) {
      FirstLinkFromFinds(links, j + 1, end);
    }
  }

  /** One entry of `grouped_links`. */
  function GroupLink(links: seq<Option<string>>, b: Boundary): Option<string> {
    FirstLinkFrom(links, b.start, b.end)
  }

  /** The link loop of parser.py, lines 212-217. */
  method FindGroupLink(links: seq<Option<string>>, b: Boundary) returns (link: Option<string>)
    ensures link == GroupLink(links, b)
  {
    link := None;
    var j := b.start;
    while j < b.end
      invariant b.start <= j
      invariant FirstLinkFrom(links, j, b.end) == GroupLink(links, b)
      decreases b.end - j
    {
      if j < |links| && Truthy(links[j]) {
        link := links[j];
        return;
      }
      j := j + 1;
    }
  }

  /** `grouped_data`: one joined text per boundary. */
  function GroupTexts(bounds: seq<Boundary>, slots: seq<string>): (r: seq<string>)
    ensures |r| == |bounds|
  {
    seq(|bounds|, k requires 0 <= k < |bounds| => GroupText(slots, bounds[k]))
  }

  /** `grouped_links`: one first link per boundary. */
  function GroupLinks(bounds: seq<Boundary>, links: seq<Option<string>>): (r: seq<Option<string>>)
    ensures |r| == |bounds|
  {
    seq(|bounds|, k requires 0 <= k < |bounds| => GroupLink(links, bounds[k]))
  }

  /** The grouping loop of parser.py, lines 203-217. */
  method GroupSlots(bounds: seq<Boundary>, texts: seq<string>, links: seq<Option<string>>)
    returns (data: seq<string>, groupLinks: seq<Option<string>>)
    ensures data == GroupTexts(bounds, texts) && groupLinks == GroupLinks(bounds, links)
  {
    data, groupLinks := [], [];
    var k := 0;
    while k < |bounds|
      invariant 0 <= k <= |bounds| && |data| == k && |groupLinks| == k
      invariant forall j :: 0 <= j < k ==> data[j] == GroupText(texts, bounds[j])
      invariant forall j :: 0 <= j < k ==> groupLinks[j] == GroupLink(links, bounds[j])
    {
      var link := FindGroupLink(links, bounds[k]);
      data := data + [GroupText(texts, bounds[k])];
      groupLinks := groupLinks + [link];
      k := k + 1;
    }
    GroupsOfEntries(bounds, texts, links, data, groupLinks);
  }

  /** Lists holding, entry by entry, the group of each boundary are the
      grouped lists. */
  lemma GroupsOfEntries(bounds: seq<Boundary>, texts: seq<string>, links: seq<Option<string>>,
                        data: seq<string>, groupLinks: seq<Option<string>>)
    requires |data| == |bounds| && |groupLinks| == |bounds|
    requires forall j :: 0 <= j < |bounds| ==> data[j] == GroupText(texts, bounds[j])
    requires forall j :: 0 <= j < |bounds| ==> groupLinks[j] == GroupLink(links, bounds[j])
    ensures data == GroupTexts(bounds, texts) && groupLinks == GroupLinks(bounds, links)
  {
  }

  /** A boundary entirely past the end of the expanded row groups nothing:
      `""` and no link. */
  lemma GroupBeyondRow(texts: seq<string>, links: seq<Option<string>>, b: Boundary)
    requires b.start >= |texts| && b.start >= |links|
    ensures GroupText(texts, b) == "" && GroupLink(links, b) == None
  {
    FirstLinkFromFinds(links, b.start, b.end);
  }

  /** Removing the empty strings of `[t, "", ..., ""]` leaves `t` alone, or
      nothing when `t` is empty, so the join is `t`. */
  lemma {:induction false} JoinPadded(t: string, n: nat)
    ensures NonEmpty([t] + Repeat("", n)) == (if t == "" then [] else [t])
    ensures JoinSpaced(NonEmpty([t] + Repeat("", n))) == t
  {
    if n > 0 {
      JoinPadded(t, n - 1);
      var s := [t] + Repeat("", n);
      assert s[..|s| - 1] == [t] + Repeat("", n - 1);
    }
  }

  /** A boundary covering exactly one cell's text block groups to that
      cell's text. */
  lemma TextBlockGroups(slots: seq<string>, b: Boundary, cell: Cell)
    requires b.start <= b.end <= |slots| && slots[b.start..b.end] == TextBlock(cell)
    ensures GroupText(slots, b) == cell.text
  {
    var w := Window(slots, b);
    assert w == [cell.text] + Repeat("", cell.colspan - 1);
    JoinPadded(cell.text, cell.colspan - 1);
  }

  /** A boundary covering exactly one cell's link block `[l, None, ..., None]`
      finds its resolved link `l`. */
  lemma {:induction false} LinkBlockGroups(links: seq<Option<string>>, b: Boundary, cell: Cell)
    requires b.start <= b.end <= |links| && links[b.start..b.end] == LinkBlock(cell)
    ensures GroupLink(links, b) == ResolveLink(cell.href)
  {
    var n := cell.colspan - 1;
    RepeatAll<Option<string>>(None, n);
    assert links[b.start] == LinkBlock(cell)[0] == ResolveLink(cell.href);
    assert forall j :: b.start < j < b.end ==> links[j] == links[b.start..b.end][j - b.start];
    var r := FirstLinkFrom(links, b.start, b.end);
    FirstLinkFromFinds(links, b.start, b.end);
    if r.None? {
      assert !Truthy(links[b.start]);
    } else {
      var i :| b.start <= i < b.end && i < |links| && links[i] == r && Truthy(r);
      assert i == b.start;
    }
  }

  // ----------------------------------------------------- grouping by cells

  /** The non-empty texts of the cells whose first slot lies in `[lo, hi)`,
      left to right. */
  function TextsStartingIn(cells: Row, lo: nat, hi: nat): (r: seq<string>)
    ensures |r| <= |cells| && forall i :: 0 <= i < |r| ==> r[i] != ""
  {
    if cells == [] then []
    else
      var init := cells[..|cells| - 1];
      var last := cells[|cells| - 1];
      TextsStartingIn(init, lo, hi) + (if lo <= Width(init) < hi && last.text != "" then [last.text] else [])
  }

  /** The resolved link of the leftmost cell that has one among the cells
      whose first slot lies in `[lo, hi)`. */
  function CellLinkIn(cells: Row, lo: nat, hi: nat): Option<string>
  {
    if cells == [] then None
    else
      var init := cells[..|cells| - 1];
      var last := cells[|cells| - 1];
      var before := CellLinkIn(init, lo, hi);
      if before.Some? then before
      else if lo <= Width(init) < hi then ResolveLink(last.href)
      else None
  }

  lemma {:induction false} NonEmptyAppend(x: seq<string>, y: seq<string>)
    ensures NonEmpty(x + y) == NonEmpty(x) + NonEmpty(y)
    decreases |y|
  {
    if y == [] {
      assert x + y == x;
    } else {
      var y0 := y[..|y| - 1];
      assert (x + y)[..|x + y| - 1] == x + y0;
      NonEmptyAppend(x, y0);
    }
  }

  lemma {:induction false} NonEmptyOfEmpties(x: seq<string>)
    requires forall i :: 0 <= i < |x| ==> x[i] == ""
    ensures NonEmpty(x) == []
  {
    if x != [] {
      NonEmptyOfEmpties(x[..|x| - 1]);
    }
  }

  /** A window that starts past a cell's first slot sees only its empty padding. */
  lemma PastCellStart(a: seq<string>, cell: Cell, lo: nat, hi: nat)
    requires |a| < lo
    ensures Window(a, Boundary(lo, hi)) == []
    ensures NonEmpty(Window(a + TextBlock(cell), Boundary(lo, hi))) == []
  {
    var s := a + TextBlock(cell);
    var x := Window(s, Boundary(lo, hi));
    RepeatAll("", cell.colspan - 1);
    forall i | 0 <= i < |x|
      ensures x[i] == ""
    {
      var l := if lo < |s| then lo else |s|;
      assert x[i] == s[l + i];
    }
    NonEmptyOfEmpties(x);
  }

  /** A window holding a cell's first slot sees its text and then empty padding. */
  lemma AtCellStart(a: seq<string>, cell: Cell, lo: nat, hi: nat)
    requires lo <= |a| < hi
    ensures NonEmpty(Window(a + TextBlock(cell), Boundary(lo, hi)))
            == NonEmpty(Window(a, Boundary(lo, hi))) + (if cell.text != "" then [cell.text] else [])
  {
    var b := Boundary(lo, hi);
    var s := a + TextBlock(cell);
    var w := |a|;
    var top := if hi < |s| then hi else |s|;
    var tail := s[w + 1..top];
    RepeatAll("", cell.colspan - 1);
    assert Window(s, b) == s[lo..top];
    assert s[lo..top] == s[lo..w] + s[w..top];
    assert s[lo..w] == a[lo..w];
    assert s[w..top] == [cell.text] + tail;
    assert Window(a, b) == a[lo..w];
    forall i | 0 <= i < |tail|
      ensures tail[i] == ""
    {
      assert tail[i] == s[w + 1 + i];
    }
    NonEmptyAppend(a[lo..w], [cell.text] + tail);
    NonEmptyAppend([cell.text], tail);
    NonEmptyOfEmpties(tail);
    assert NonEmpty([cell.text]) == (if cell.text == "" then [] else [cell.text]) by {
      assert [cell.text][..0] == [];
    }
  }

  /** Appending one cell's block to the slots adds its text to a window's
      non-empty texts exactly when the cell starts inside the window. */
  lemma WindowTextsStep(a: seq<string>, cell: Cell, lo: nat, hi: nat)
    ensures NonEmpty(Window(a + TextBlock(cell), Boundary(lo, hi)))
            == NonEmpty(Window(a, Boundary(lo, hi))) + (if lo <= |a| < hi && cell.text != "" then [cell.text] else [])
  {
    var b := Boundary(lo, hi);
    if hi <= |a| || hi < lo {
      assert Window(a + TextBlock(cell), b) == Window(a, b);
    } else if lo > |a| {
      PastCellStart(a, cell, lo, hi);
    } else {
      AtCellStart(a, cell, lo, hi);
    }
  }

  /** The non-empty slot texts inside a window are the non-empty texts of
      the cells that start in it: a cell's padding slots are empty. */
  lemma {:induction false} WindowTexts(cells: Row, lo: nat, hi: nat)
    ensures NonEmpty(Window(ExpandTexts(cells), Boundary(lo, hi))) == TextsStartingIn(cells, lo, hi)
    decreases |cells|
  {
    if cells == [] {
      assert Window(ExpandTexts(cells), Boundary(lo, hi)) == [];
    } else {
      var init := cells[..|cells| - 1];
      WindowTexts(init, lo, hi);
      WindowTextsStep(ExpandTexts(init), cells[|cells| - 1], lo, hi);
    }
  }

  /** Looking for a link in `x + y` finds the one in `x`, or else keeps
      looking from the start of `y`. */
  lemma {:induction false} FirstLinkAppend(x: seq<Option<string>>, y: seq<Option<string>>, j: nat, end: nat)
    ensures FirstLinkFrom(x + y, j, end)
            == if FirstLinkFrom(x, j, end).Some? then FirstLinkFrom(x, j, end)
               else FirstLinkFrom(x + y, if j < |x| then |x| else j, end)
    decreases end - j
  {
    if j < end && j < |x| {
      assert (x + y)[j] == x[j];
      FirstLinkAppend(x, y, j + 1, end);
      if !Truthy(x[j]) && FirstLinkFrom(x, j + 1, end).None? && j + 1 < |x| {
        assert FirstLinkFrom(x + y, j + 1, end) == FirstLinkFrom(x + y, |x|, end);
      }
    } else if j < end {
      FirstLinkFromFinds(x, j, end);
    }
  }

  /** Past the first slot of a link block only `None`s follow. */
  lemma {:induction false} FirstLinkPastBlock(s: seq<Option<string>>, j: nat, end: nat)
    requires forall i :: j <= i < |s| ==> s[i] == None
    ensures FirstLinkFrom(s, j, end) == None
    decreases end - j
  {
    if j < end {
      FirstLinkPastBlock(s, j + 1, end);
    }
  }

  /** The first truthy slot link inside a window is the resolved link of the
      leftmost cell that starts in it and has one. */
  lemma {:induction false} WindowLink(cells: Row, lo: nat, hi: nat)
    ensures FirstLinkFrom(ExpandLinks(cells), lo, hi) == CellLinkIn(cells, lo, hi)
    decreases |cells|
  {
    if cells == [] {
      FirstLinkPastBlock([], lo, hi);
    } else {
      var init := cells[..|cells| - 1];
      var last := cells[|cells| - 1];
      var a, blk := ExpandLinks(init), LinkBlock(last);
      var s := a + blk;
      var w := |a|;
      assert ExpandLinks(cells) == s;
      WindowLink(init, lo, hi);
      FirstLinkAppend(a, blk, lo, hi);
      RepeatAll<Option<string>>(None, last.colspan - 1);
      var from := if lo < w then w else lo;
      if FirstLinkFrom(a, lo, hi).None? {
        if lo <= w < hi {
          assert from == w && s[w] == ResolveLink(last.href);
          FirstLinkPastBlock(s, w + 1, hi);
          ResolveLinkIdempotent(last.href);
        } else if w < lo {
          FirstLinkPastBlock(s, from, hi);
        }
      }
    }
  }

  /** The widths of two rows agree prefix by prefix when their colspans agree. */
  lemma {:induction false} SameSpansSameWidths(a: Row, b: Row, k: nat)
    requires |a| == |b| && k <= |a|
    requires forall i :: 0 <= i < |a| ==> a[i].colspan == b[i].colspan
    ensures Width(a[..k]) == Width(b[..k])
  {
    if k > 0 {
      SameSpansSameWidths(a, b, k - 1);
      assert a[..k][..k - 1] == a[..k - 1] && b[..k][..k - 1] == b[..k - 1];
    }
  }

  /** In a row that spans like the header, boundary `k` covers exactly the
      slots of cell `k`. */
  lemma {:induction false} AlignedBoundary(hdr: Row, cells: Row, k: nat)
    requires |cells| == |hdr| && k < |hdr|
    requires forall i :: 0 <= i < |hdr| ==> cells[i].colspan == hdr[i].colspan
    ensures Boundaries(hdr)[k] == Boundary(Width(cells[..k]), Width(cells[..k]) + cells[k].colspan)
    ensures Width(cells[..k]) + cells[k].colspan <= Width(cells)
  {
    BoundaryAt(hdr, k);
    SameSpansSameWidths(cells, hdr, k);
    WidthStep(cells, k);
    WidthGrows(cells, k + 1, |cells|);
    assert cells[..|cells|] == cells;
  }

  lemma {:induction false} AlignedText(hdr: Row, cells: Row, k: nat)
    requires |cells| == |hdr| && k < |hdr|
    requires forall i :: 0 <= i < |hdr| ==> cells[i].colspan == hdr[i].colspan
    ensures GroupText(ExpandTexts(cells), Boundaries(hdr)[k]) == cells[k].text
  {
    AlignedBoundary(hdr, cells, k);
    ExpandTextsAt(cells, k);
    TextBlockGroups(ExpandTexts(cells), Boundaries(hdr)[k], cells[k]);
  }

  lemma {:induction false} AlignedLink(hdr: Row, cells: Row, k: nat)
    requires |cells| == |hdr| && k < |hdr|
    requires forall i :: 0 <= i < |hdr| ==> cells[i].colspan == hdr[i].colspan
    ensures GroupLink(ExpandLinks(cells), Boundaries(hdr)[k]) == ResolveLink(cells[k].href)
  {
    AlignedBoundary(hdr, cells, k);
    ExpandLinksAt(cells, k);
    LinkBlockGroups(ExpandLinks(cells), Boundaries(hdr)[k], cells[k]);
  }

  /** A row whose cells span exactly like the header's is reproduced: logical
      column `k` holds cell `k`'s text and resolved link. */
  lemma {:induction false} AlignedRowKeepsCells(hdr: Row, cells: Row, k: nat)
    requires |cells| == |hdr| && k < |hdr|
    requires forall i :: 0 <= i < |hdr| ==> cells[i].colspan == hdr[i].colspan
    ensures GroupText(ExpandTexts(cells), Boundaries(hdr)[k]) == cells[k].text
    ensures GroupLink(ExpandLinks(cells), Boundaries(hdr)[k]) == ResolveLink(cells[k].href)
  {
    AlignedText(hdr, cells, k);
    AlignedLink(hdr, cells, k);
  }
}
