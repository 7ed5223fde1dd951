# html-table-to-EXCEL in Dafny

A model of the core of html-table-to-EXCEL, a tool that converts an HTML
financial table (an SEC filing, say) into a formatted Excel worksheet, and of
the two helpers of its batch driver.

The parser (`parse_html`) and the worksheet writer (`json_to_excel`) work in
stages:

1. **Row spans.** Row 1's cells with `rowspan > 1` are spliced into row 2, at
   the atomic column where each one starts (`row_spans.dfy`).
2. **Header.** The header row is chosen by a heuristic. A `background-color`
   on row 3 or row 4 marks a styled table; otherwise the first row with a
   labelled first cell is used (`header.dfy`).
3. **Columns.** The header's colspans become column boundaries. Every emitted
   row is expanded into atomic slots (text plus link) and regrouped into
   logical columns (`columns.dfy`). Its indent level is read from the CSS
   padding of its first cell (`padding.dfy`).
4. **Result.** The emitted rows form the JSON-shaped table (`parser.dfy`,
   over the values in `table_model.dfy`).
5. **Worksheet.** `json_to_excel` classifies each entry as text, an integer
   or a decimal, with its Excel number format (`numeric.dfy`). It loads the
   entries into a worksheet and runs its style passes in source order: links,
   number formats, row alignment, header row, `A1` link, alternating fills.
   Then it sizes every column.
   - `sheet.dfy` states each pass as a function on a grid of cell records.
   - `worksheet.dfy` holds the `Worksheet` class. Each of its methods is one
     loop of the source, proved to leave the grid equal to the matching pass.

`table_finder.dfy` models `url_to_dirname` and `normalize_config`. They turn a
configuration into a list of sources, each with an output directory derived
from its URL.

Python's string operations are written out in `strings.dfy`:
- `startswith`, `in`, `replace`, `' '.join` and `str(int)`;
- the `\s`, `\d` and `\w` classes;
- `Option` and `Result` (in `wrappers.dfy`) stand for `None` and for raised
  exceptions.

Where the code and its documentation disagree, the model follows the code:
- the header test looks for the `background-color` substring only, with no
  check of the colour;
- percent values are not scaled;
- parenthesised negatives such as `(1,234)` stay text (`Numeric.ParenthesisedStaysText`);
- there is no column merging;
- alternating fills start at sheet row 2 in every case.

## Model

| member | source | states |
|---|---|---|
| `Strings.StartsWithSlice` | parser.py:192 | `startswith` holds exactly when the prefix is the first characters of the string |
| `Strings.NatToStringDigits` | table_finder.py:76 | `str(n)` consists of decimal digits whose value is `n` |
| `Strings.NonEmptyKeeps` | parser.py:208 | the filter `[t for t in ts if t]` keeps exactly the non-empty strings, and adds none |
| `Strings.RemoveAll` | table_finder.py:52 | `replace(pat, '')` never lengthens the string |
| `Strings.RemoveAllLeading` | table_finder.py:52 | an occurrence of `pat` at the front is removed: `(pat + s).replace(pat, '')` is `s.replace(pat, '')` |
| `Strings.RemoveAllAbsent` | table_finder.py:52 | a string in which `pat` does not occur comes back unchanged |
| `TableModel.WidthAppend` | parser.py:151-156 | the atomic width of two runs of cells is the sum of their widths |
| `TableModel.WidthGrows` | parser.py:151-156 | every cell covers at least one atomic column, so a longer prefix of a row is wider |
| `Padding.SkipRunShape` | parser.py:21 | skipping a character class drops a prefix made only of that class |
| `Padding.LeftmostAt` | parser.py:21-23 | `re.search` returns the match at the first position where the pattern matches |
| `Padding.LeftmostNone` | parser.py:26-30 | the search finds nothing when the pattern matches nowhere |
| `Padding.LeftmostFound` | parser.py:21-28 | whatever `re.search` returns is the match at some position of the string |
| `Padding.ExtractShorthand` | parser.py:21-23 | the first four-value `padding` shorthand anywhere in the style gives the left padding |
| `Padding.ExtractPaddingLeft` | parser.py:25-28 | with no shorthand, the first `padding-left` in points decides |
| `Padding.ExtractNoPadding` | parser.py:16-30 | a style with neither declaration gives 0 |
| `Padding.ExtractLeftPadding` | parser.py:16-30 | `extract_left_padding`: a non-zero result is the value of a shorthand or `padding-left` declaration found somewhere in the style |
| `Padding.ShorthandTailOf` | parser.py:21 | after `padding:`, optional blanks, three values each followed by whitespace, then digits and `pt` match and yield those digits' value |
| `Padding.ShorthandDeclaration` | parser.py:21-23 | a style opening with `padding:` and four values yields the fourth value, whatever follows |
| `Padding.PaddingLeftDeclaration` | parser.py:26-28 | a style opening with `padding-left: Npt` and no shorthand anywhere yields `N` |
| `Padding.NoShorthandAt` | parser.py:21 | such a style has no shorthand match at any position |
| `Padding.IndentLevel` | parser.py:32-45 | the level is never negative, and is 0 up to the base padding |
| `Padding.IndentLevelIsNearest` | parser.py:41-43 | beyond the base, the level is the number of steps nearest to the extra padding, within half a step |
| `Padding.IndentLevelMonotonic` | parser.py:32-45 | more padding never gives a smaller level |
| `Padding.IndentLevelExamples` | parser.py:32 | with the defaults of 10pt and 9pt: 10 and 14 give level 0, 15 and 19 give 1, 28 gives 2, 2310 gives 256 |
| `RowSpans.CollectSpanningCells` | parser.py:75-84 | the loop records the spanning cells of row 1, each with the width of the cells before it |
| `RowSpans.SpanningCellsAreSpanning` | parser.py:81-82 | the recorded cells are exactly the cells of row 1 with `rowspan > 1`, in order |
| `RowSpans.SpanningCellsAtPrefixSums` | parser.py:77-84 | each recorded position is the sum of the colspans to the left of its cell |
| `RowSpans.SpanningCellsOrdered` | parser.py:77-84 | the recorded ranges run left to right without overlapping and end within row 1 |
| `RowSpans.PlacementLength` | parser.py:98-113 | from any state of the loops, every remaining row-2 cell and spanning cell is placed exactly once |
| `RowSpans.PlacementKeepsRow2` | parser.py:100-113 | the remaining row-2 cells appear in their original order |
| `RowSpans.PlacementKeepsSpanning` | parser.py:98-108 | the remaining spanning cells appear in their original order |
| `RowSpans.SpliceInterleaves` | parser.py:92-116 | the new row 2 is an interleaving of the old row 2 and the spanning cells, as long as both together |
| `RowSpans.SplicedRow2` | parser.py:66-88 | a new row 2 exists only for tables of more than two rows whose row 1 has a spanning cell |
| `RowSpans.Splice` | parser.py:92-113 | the splice loops build the interleaving the placement defines |
| `Header.HasBackgroundColor` | parser.py:47-54 | true exactly when some cell's `style` attribute contains `background-color` |
| `Header.FirstLabelledFrom` | parser.py:131-137 | finds the first row whose first cell has text; finds none only when no row qualifies |
| `Header.FindFirstLabelled` | parser.py:129-137 | the search loop returns that first labelled row |
| `Header.ChooseHeader` | parser.py:119-142 | background on row 3 gives header 1, else on row 4 gives header 2, both from row 1; otherwise the first labelled row, or row 1, is both header and first row emitted |
| `Header.HeaderRowExists` | parser.py:148 | the header row exists exactly when there are two rows or more, or a single row that is labelled |
| `Header.HeaderCells` | parser.py:144-148 | the spliced row 2 when row 2 is the header and a splice happened; otherwise the header row, if it exists |
| `Columns.Boundaries` | parser.py:150-156 | one boundary per header cell |
| `Columns.BuildBoundaries` | parser.py:151-156 | the loop with its running position computes those boundaries |
| `Columns.BoundaryAt` | parser.py:153-156 | boundary `k` starts at the width of header cells `0..k-1` and is as wide as cell `k` |
| `Columns.BoundariesPartition` | parser.py:150-156 | the boundaries tile `[0, Σ colspan)`: they start at 0, each ends where the next starts, and the last ends at the header's width |
| `Columns.ColumnInOneBoundary` | parser.py:150-156 | every atomic column of the header lies in exactly one boundary |
| `Columns.ResolveLink` | parser.py:187-193 | a missing or empty `href` gives no link; a site-relative one gets the SEC base; any other is kept |
| `Columns.ResolveLinkIdempotent` | parser.py:189-193 | a resolved link is truthy and absolute, so resolving it again changes nothing |
| `Columns.ExpandTexts` | parser.py:182-200 | the expanded text slots are as many as the atomic width of the row |
| `Columns.ExpandCells` | parser.py:182-200 | the expansion loop produces, for each cell, its text and link, then `colspan - 1` empty slots |
| `Columns.ExpandTextsAt` | parser.py:195-199 | cell `k`'s text slots sit at the width of the cells before it: its text, then empty strings |
| `Columns.ExpandLinksAt` | parser.py:196-200 | cell `k`'s link slots sit at the same place: its resolved link, then `None` |
| `Columns.Window` | parser.py:207 | `range(start, end)` filtered by `j < len` is the slice of the boundary, or nothing past the row |
| `Columns.FirstLinkFromFinds` | parser.py:212-216 | the link found is the first truthy one in range; none is found only when no link in range is truthy |
| `Columns.FindGroupLink` | parser.py:212-217 | the break loop returns that first truthy link |
| `Columns.GroupSlots` | parser.py:203-217 | the grouping loop yields, per boundary, the joined non-empty texts and the first link |
| `Columns.GroupsOfEntries` | parser.py:203-217 | lists holding each boundary's group entry by entry are the grouped texts and links |
| `Columns.GroupBeyondRow` | parser.py:206-217 | a boundary past the end of a short row groups to `""` and no link |
| `Columns.JoinPadded` | parser.py:208 | the join of a text followed by empty padding slots is that text |
| `Columns.TextBlockGroups` | parser.py:206-209 | a boundary covering exactly one cell's slots groups to that cell's text |
| `Columns.LinkBlockGroups` | parser.py:211-217 | a boundary covering exactly one cell's slots finds that cell's resolved link |
| `Columns.TextsStartingIn` | parser.py:195-209 | the texts of the cells that start in a window are non-empty and at most one per cell |
| `Columns.NonEmptyAppend` | parser.py:208 | filtering out empty strings distributes over concatenation |
| `Columns.WindowTexts` | parser.py:182-209 | the non-empty slot texts of a window are, in order, the non-empty texts of the cells whose first slot lies in it |
| `Columns.FirstLinkAppend` | parser.py:212-216 | the first truthy link of `x + y` is the one in `x` if there is one, else the scan continues into `y` |
| `Columns.WindowLink` | parser.py:182-217 | the first truthy slot link of a window is the resolved link of the leftmost cell starting in it that has one |
| `Columns.SameSpansSameWidths` | parser.py:153-156 | rows with equal colspans have equal prefix widths |
| `Columns.AlignedBoundary` | parser.py:150-156 | in a row spanning like the header, boundary `k` covers exactly the slots of cell `k` |
| `Columns.AlignedRowKeepsCells` | parser.py:177-217 | a row spanning like the header is reproduced: logical column `k` holds cell `k`'s text and resolved link |
| `Parser.NormalizeRow` | parser.py:168-229 | a normalised row has one data entry and one link per boundary |
| `Parser.BuildRow` | parser.py:168-229 | the row-loop body computes the normalised row |
| `Parser.NormalizeRowFromCells` | parser.py:182-217 | in cell terms, logical column `k` joins with single spaces the non-empty texts of the cells whose first atomic column lies in boundary `k`, and takes the resolved link of the leftmost such cell that has one |
| `Parser.IsCenterContinuous` | parser.py:168-173 | the title-row test: one cell with text and a colspan above 1, so a title row always covers more than one atomic column |
| `Parser.TableRowsAt` | parser.py:161-166 | emitted row `i` is row `start + i`, with the spliced row 2 in its place |
| `Parser.BuildTableRow` | parser.py:159-238 | row `i` of the built table is row `start + i`, normalised |
| `Parser.SpliceRow2` | parser.py:66-116 | the splice step produces the new row 2 exactly when one is defined |
| `Parser.PickHeader` | parser.py:119-142 | the header heuristic returns the chosen header and start rows |
| `Parser.NormalizeRows` | parser.py:159-229 | the row loop emits every row from the start on, normalised |
| `Parser.TableRowsEq` | parser.py:161-229 | a list matching the emitted rows position by position is the emitted table |
| `Parser.ParseHtml` | parser.py:56-238 | `parse_html` returns the table that `Parse` defines, or its error |
| `Parser.Parse` | parser.py:56-238 | `parse_html` on a document: `NoTable` without a table, otherwise the parse of its rows; every table it returns is well formed, each row exactly `column_count` wide |
| `Parser.ParseFailsIff` | parser.py:60-62 | parsing fails with no table exactly when there is none, and with a missing header exactly for zero rows or one unlabelled row |
| `Parser.ParseWellFormed` | parser.py:231-236 | a parsed table has one column per header cell, every row exactly that wide in data and links, and one row per emitted row |
| `Numeric.Clean` | parser.py:304-306 | the cleaned text is no longer and holds no `,`, `$`, `%` or whitespace |
| `Numeric.CleanKeeps` | parser.py:304-306 | cleaning keeps every other character and adds none |
| `Numeric.DigitRun` | parser.py:310 | the run of digits at the start of the text is maximal |
| `Numeric.ScanLiteralSound` | parser.py:310 | what the scanner accepts for `^-?\d+\.?\d*$` is a valid literal, written exactly as the input |
| `Numeric.ScanLiteralComplete` | parser.py:310 | every valid literal is accepted and read back as itself |
| `Numeric.LiteralValue` | parser.py:312-316 | with a dot the value is a decimal with as many places as digits after it; without one it is an integer |
| `Numeric.ClassifyIsNumericIff` | parser.py:297-332 | a cell is numeric exactly when it is non-empty and its cleaned text is a valid literal; it then holds that literal's number with the `$`, `%`, `,` flags and decimal places; every other cell keeps its text |
| `Numeric.Classify` | parser.py:297-332 | one pass of the conversion loop: an entry gets a number style exactly when it becomes a number, and an entry that stays text keeps its text as written |
| `Numeric.LiteralChars` | parser.py:310 | a literal consists only of digits, `-` and `.` |
| `Numeric.ParenthesisedStaysText` | parser.py:304-310 | a cell containing `(` stays text |
| `Numeric.DecodeBaseFormat` | parser.py:370-379 | the base format reads back as its grouping and decimal places, and is neither `$`-prefixed nor `%`-suffixed |
| `Numeric.DecodeFormatString` | parser.py:369-386 | every format string reads back as its style's sign, grouping and decimal places; `$` wins over `%` |
| `Numeric.FormatString` | parser.py:369-386 | the `number_format` built for a numeric cell is never empty, starts with `$` exactly for a `$` cell, and ends with `%` exactly for a `%` cell without `$` |
| `Numeric.FormatStringInjective` | parser.py:369-386 | two styles share a format exactly when they show the same sign, grouping and decimal places |
| `Sheet.InitialGrid` | parser.py:337-344 | the loaded sheet has the sheet's size, and each cell holds the classified entry unstyled, with an empty entry loaded as no value |
| `Sheet.EmptyEntryLoadsEmpty` | parser.py:337-344 | a loaded cell has no value exactly when its entry is empty; any other entry comes back as its classified value |
| `Sheet.GridsEqual` | parser.py:337-344 | two grids of the same shape with the same cells are equal |
| `Sheet.LinkPass` | parser.py:357-361 | every cell with a truthy link gets it, in the link font, and a cell with no value takes the link target as its value; nothing else changes |
| `Sheet.FormatPass` | parser.py:364-386 | every numeric cell gets its format string; nothing else changes |
| `Sheet.AlignPass` | parser.py:389-397 | a centred title row is centred across all columns; otherwise an indented row's first cell is indented |
| `Sheet.HeaderPass` | parser.py:399-403 | every cell of row 1 becomes white, bold and centred |
| `Sheet.FirstCellPass` | parser.py:405-411 | with a table link, `A1` links there, shows "Link to Table" when empty, and uses the link font |
| `Sheet.ShadePass` | parser.py:413-426 | from row 2 on: white on even rows and gray on odd ones when alternating, and vertical centring for cells without a horizontal alignment or indent |
| `Sheet.Render` | parser.py:272-426 | the styled sheet has the table's rows and columns, or the single cell `A1` |
| `Sheet.RenderAt` | parser.py:357-426 | each cell of the styled sheet is the passes applied in source order to that cell alone |
| `Sheet.HeaderRowStyled` | parser.py:399-411 | row 1 ends white and centred, in the bold font, except that a linked `A1` takes the link font, which is also bold |
| `Sheet.RowsShaded` | parser.py:413-426 | below row 1 the fill alternates white and gray by sheet row when enabled, and is absent otherwise |
| `Sheet.RowAlignment` | parser.py:389-426 | below row 1, title rows are centred across, indented first cells keep their level, and all else is only centred vertically |
| `Sheet.CenterContinuousUnindented` | parser.py:283 | a centred title row gets no indentation prefix |
| `Sheet.IndentPrefix` | parser.py:283-284 | an indented first entry is its text after two spaces per level |
| `Sheet.CellText` | parser.py:283-284 | the entry written to a cell: indentation adds two characters per level to an indented first entry and changes no other entry; a column past the row's data is empty |
| `Sheet.FirstCellLinked` | parser.py:357-411 | with a table link, `A1` links there and relabels a missing, empty or zero value; that value is the entry's, or the entry's own link target when the entry is empty; without a table link, `A1` keeps that value |
| `Sheet.CellValueAndFormat` | parser.py:297-386 | every cell but `A1` holds its classified value, or for an empty entry its link target or no value, with its style's format string or "General" |
| `Sheet.EmptyLinkedCellShowsTarget` | parser.py:337-361 | an empty entry with a link shows the link target, and one without a link shows nothing |
| `Sheet.CellLinks` | parser.py:286-293 | below row 1, a linked cell carries its link in the link font; an unlinked one has neither |
| `Sheet.ZeroPadded` | parser.py:435 | padding with zeros reaches the requested width and never shortens |
| `Sheet.Display` | parser.py:435 | `str(cell.value)`, with `""` for no value: it is empty exactly for no value or empty text, so every number counts towards the column width |
| `Sheet.MaxOfIsMax` | parser.py:430-439 | the running maximum bounds every length and equals one of them |
| `Sheet.ColumnWidthFits` | parser.py:441 | a column's width is at most 50; below the cap it is its longest displayed value plus two, reached by some cell |
| `Sheet.ColumnWidth` | parser.py:429-441 | `min(max_length + 2, 50)` over the column's displayed lengths: always between 2 and 50 |
| `Sheet.ColumnWidthsAt` | parser.py:429-442 | every column gets the width of its own values |
| `Sheet.WellFormedRenders` | parser.py:242-397 | a parsed table of Excel's size with at least one column, and no indent level above 255 on a row it indents, raises none of the errors the code itself raises |
| `Sheet.DeepIndentFails` | parser.py:393-397 | a row indented 256 levels and not centred makes `Alignment(indent=...)` raise |
| `Sheet.RenderFailure` | parser.py:283-397 | the first error `json_to_excel` raises, in the order the code reaches them; there is none exactly when no indented row is empty, the table fits Excel's rows and columns, the column count is a valid column index, and every indent it sets is at most 255 |
| `Workbook.PrepareRow` | parser.py:277-334 | a row's values are its entries, after indentation, each classified |
| `Workbook.ClassifyEntries` | parser.py:296-332 | the inner conversion loop classifies every entry |
| `Workbook.LoadedGrid` | parser.py:337-344 | the written and reloaded sheet holds each data-frame entry as an unstyled cell, an empty string as no value |
| `Workbook.LoadedIsInitial` | parser.py:276-344 | loading the converted rows gives the first-pass sheet of the table |
| `Workbook.PrepareRows` | parser.py:276-334 | the conversion fails exactly on an indented row with no entries; otherwise every row is converted |
| `Workbook.Worksheet.Load` | parser.py:337-344 | the loaded worksheet holds the data frame's values, empty strings as no value, and no widths yet |
| `Workbook.Worksheet.ApplyHyperlinks` | parser.py:357-361 | the hyperlink loop leaves the grid equal to the link pass, including the value the hyperlink setter gives a cell with none |
| `Workbook.Worksheet.ApplyNumberFormats` | parser.py:363-386 | the number-format loop leaves the grid equal to the format pass |
| `Workbook.Worksheet.AlignRows` | parser.py:388-397 | with every indent level one openpyxl accepts, the alignment loop leaves the grid equal to the alignment pass |
| `Workbook.Worksheet.FormatHeaderRow` | parser.py:399-403 | the header loop leaves the grid equal to the header pass |
| `Workbook.Worksheet.LinkFirstCell` | parser.py:405-411 | the `A1` step leaves the grid equal to the first-cell pass |
| `Workbook.Worksheet.ShadeRows` | parser.py:413-426 | the shading loops leave the grid equal to the shading pass |
| `Workbook.Worksheet.FitColumns` | parser.py:428-442 | the grid is unchanged and the widths are the columns' widths |
| `Workbook.LongestIn` | parser.py:430-439 | the inner width loop finds the longest displayed value of the column |
| `Workbook.ColumnWidthsOf` | parser.py:429-442 | the outer width loop computes every column's capped width |
| `Workbook.StyleSheet` | parser.py:337-442 | loading, the six style passes in order and the width loop give the styled sheet with its widths |
| `Workbook.JsonToExcel` | parser.py:242-444 | `json_to_excel` fails exactly when the code itself raises, with the first such error: an indented empty row, a sheet too large, an invalid column count, then an indent level above 255; otherwise it returns the styled worksheet |
| `TableFinder.FindMatch` | table_finder.py:50 | the leftmost position where `://` is followed by a character other than `/`, or none when there is no such position |
| `TableFinder.RunEndStops` | table_finder.py:50 | a greedy `[^c]*` run stops at the first `c` from its start, or at the end |
| `TableFinder.RunEndAt` | table_finder.py:50 | a position holding `c`, or the end, with no `c` before it is where the run ends |
| `TableFinder.GroupsAtShape` | table_finder.py:50-53 | the domain is the maximal run without `/` after `://`; the path is empty exactly at the end of the URL, otherwise it starts with `/` and runs up to the first `?` |
| `TableFinder.MatchUrl` | table_finder.py:50-53 | there is no match exactly when no position matches; otherwise it holds the groups of the leftmost match |
| `TableFinder.Sanitize` | table_finder.py:57 | every character other than a word character or `-` becomes `_` |
| `TableFinder.Collapse` | table_finder.py:58 | collapsing runs of `_` never lengthens the name and keeps its last character |
| `TableFinder.CollapseKeepsSingle` | table_finder.py:58 | a name without `__` is left as it is |
| `TableFinder.CollapsePair` | table_finder.py:58 | `__` and `_` collapse alike wherever they stand |
| `TableFinder.NonUnderscores` | table_finder.py:58 | the characters other than `_`, in order, none of them `_` |
| `TableFinder.CollapseKeepsOthers` | table_finder.py:58 | collapsing keeps every character other than `_`, in order |
| `TableFinder.StripUnderscores` | table_finder.py:59 | stripping never lengthens the name |
| `TableFinder.CollapseShape` | table_finder.py:57-58 | after sanitising and collapsing, the name is safe and holds no `__` |
| `TableFinder.StripShape` | table_finder.py:59 | stripping keeps a contiguous piece of its input that neither starts nor ends with `_`, and everything it removes before and after that piece is `_` |
| `TableFinder.CleanNameShape` | table_finder.py:56-59 | the cleaned name has only word characters and `-`, no `__`, and no `_` at either end |
| `TableFinder.DirnameShape` | table_finder.py:47-62 | the directory name is the first 50 characters of the cleaned domain and path: at most 50 characters, safe, no `__`, no leading `_` |
| `TableFinder.UrlToDirname` | table_finder.py:47-62 | `url_to_dirname`: "unknown" without a match, else the name built from the match; always a safe name of at most 50 characters |
| `TableFinder.MatchDirnameSafe` | table_finder.py:52-61 | the name built from a match's groups is safe and at most 50 characters long |
| `TableFinder.MatchAfter` | table_finder.py:50 | a match right after a prefix that ends in `://` and has no earlier `:` is the leftmost one |
| `TableFinder.GroupsAfter` | table_finder.py:50-53 | the groups of a match after an eight-character prefix are the runs of what follows |
| `TableFinder.HttpsGroups` | table_finder.py:50-53 | the groups of `https://` followed by a domain are the runs of what follows |
| `TableFinder.RestGroupsWww` | table_finder.py:50-52 | `www.` in front only lengthens the domain group |
| `TableFinder.MatchDirnameWww` | table_finder.py:52-61 | a domain's leading `www.` is removed before the name is built |
| `TableFinder.WwwIgnored` | table_finder.py:50-61 | `https://www.X` and `https://X` map to the same directory name |
| `TableFinder.SecGovPlain` | table_finder.py:52 | `sec.gov` holds no `www.` to remove |
| `TableFinder.SecBrowseClean` | table_finder.py:56-59 | `sec.gov/cgi-bin/browse` cleans to `sec_gov_cgi-bin_browse` |
| `TableFinder.SecBrowseGroups` | table_finder.py:50-53 | the groups of `sec.gov/cgi-bin/browse?x=1` are `sec.gov` and `/cgi-bin/browse` |
| `TableFinder.SecBrowseName` | table_finder.py:52-61 | those groups give the name `sec_gov_cgi-bin_browse` |
| `TableFinder.SecBrowseDirname` | table_finder.py:47-62 | `https://www.sec.gov/cgi-bin/browse?x=1` maps to `sec_gov_cgi-bin_browse` |
| `TableFinder.UnknownWithoutScheme` | table_finder.py:50-62 | a URL with no match, in particular one without `://`, gives "unknown" |
| `TableFinder.JoinPath` | table_finder.py:78 | `os.path.join` puts one `/` between a plain base and a relative name |
| `TableFinder.NormalizeConfig` | table_finder.py:64-93 | `urls` wins over `sources`, which wins over `input_url`; the sources are numbered URL sources under the base directory, the given list, the single source, or empty; the defaults are `default_settings` or empty |
| `TableFinder.UrlSourceDirectory` | table_finder.py:71-79 | a URL source's directory is the base, `/`, then the URL's directory name |

## Left out

- The HTML itself is not parsed. BeautifulSoup's `find('table')`, `find_all('tr'/'td')`,
  `get_text(strip=True)` and `find('a')` are taken as given: a document is
  `None` (no `<table>`) or its rows of cells, each with its text, spans,
  `style` and `href`.
- Colspans are at least 1. A `colspan` that `int()` rejects, or one that is not
  positive, raises or misbehaves in the source; the model does not take such
  values as input.
- Character classes are ASCII. Python's `\d`, `\w` and `int()` also accept
  other Unicode digits and letters; `\s` and `strip()` use Python's full
  whitespace set.
- File I/O is left out. Writing and reading the `.xlsx` is not modelled:
  `to_excel`/`load_workbook` are modelled by what they leave in the sheet, and
  `wb.save` and `showGridLines` are not modelled. For `normalize_config`,
  loading the JSON configuration and `os.makedirs` are left out.
- Sheet.Display: `str()` of a float is approximated by fixed-point text with
  the cell's decimal places. Python's shortest round-trip form and its
  exponent notation are not modelled, and neither is the column-type coercion
  pandas applies to a column mixing integers and floats. Only the column
  widths depend on this.
- Workbook.JsonToExcel requires a well-formed table: every row as wide as
  `column_count`, as every result of the parser is (`Parser.ParseWellFormed`).
  Ragged input, and the `links` default of `row_obj.get`, are not modelled.
- Workbook.JsonToExcel and Sheet.WellFormedRenders: openpyxl's checks on a
  cell's text are not modelled. It raises `IllegalCharacterError` for the
  control characters `\x00`-`\x08`, `\x0b`, `\x0c` and `\x0e`-`\x1f` during
  `to_excel` (parser.py:340), and it cuts text to 32767 characters. The model
  neither fails on such text nor shortens it. "Fails exactly when" covers
  the errors the code raises and the indent limit of openpyxl's `Alignment`,
  not these checks on cell text.
- Numeric.ClassifyIsNumericIff: Python's limits on number conversion are not
  modelled, and integers and decimals are exact. From Python 3.11 on, `int()`
  refuses a decimal string of more than 4300 digits with a `ValueError`.
  parser.py:329 catches it, so such an entry stays text, while the model
  makes it an integer. `float()` rounds to a double and gives `inf` beyond
  about 1e308, while `Decimal` keeps the written number. The digit limit
  depends on the interpreter's version and settings.
- Padding.ExtractShorthand: the same `int()` limit makes parser.py:23 raise
  on a shorthand value of more than 4300 digits. The model returns the value.
- Padding.ExtractPaddingLeft: the same `int()` limit makes parser.py:28 raise
  on a `padding-left` of more than 4300 digits. The model returns the value.
- Parser.ParseHtml: that uncaught `ValueError` from `extract_left_padding`
  would make `parse_html` raise. The model fails only with `NoTable` or
  `HeaderRowMissing`.
- TableFinder.NormalizeConfig passes `default_settings` and the entries of
  `sources` through unchanged, whatever JSON values they are. The model types
  them as a map from strings to strings and as records with a name, a URL and
  an output directory. Nothing is lost, since neither is inspected.
- TableFinder.JoinPath models `os.path.join` as POSIX defines it. Windows
  drive letters and `\` separators are not modelled.
- Workbook.Worksheet.Load builds the sheet row by row from the converted
  values. openpyxl's lazy cell creation and the order in which it fills cells
  are not modelled.
- Sheet.ShadeStep reads `not cell.alignment` as "no horizontal alignment and
  no indent", which is how openpyxl's always-present alignment object behaves.
- The SEC base URL is a constant, as in the source. `hyperlink_url`,
  `alternating_colors` and the output path are parameters.
- `find_tables`, `load_config`, `convert_tables_to_excel`, the HTTP client and
  the web API are not part of this model.
