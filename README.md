# SharePoint docs MCP server: Excel helpers, error classification and configuration, in Dafny

This project models the pure and step-by-step core of the SharePoint document
server. It covers six parts:

- **Ranges** (`ExcelRangeCalculator`): A1-style cell ranges. It computes the
  header rows a frozen pane adds, the bounding box of two ranges, the
  expansion of a cell, column or row to row 1 or column A, the size of a
  range, and the normalisation of bare column specs such as `"J"` or
  `"$J:$K"`.
- **Merged cells** (`ExcelMergedCellHandler`): the cache of merged cells for
  the block that is returned. It holds a coordinate → range map, a range →
  anchor-value map and the list of merged ranges, with the anchor search
  over the cells of a merge.
- **Frozen panes** (`ExcelPaneManager`): the frozen rows and columns read
  from a pane, their freeze-pane cell text, and the check of the frozen rows
  against a limit.
- **Styles** (`ExcelStyleExtractor`): colours rendered as text, the width and
  height caches of a sheet, and the style record of a cell.
- **Errors** (`error_messages`): the seven error categories, one message
  builder per category, and `handle_sharepoint_error`. The latter decides by
  HTTP status first and then by keywords in the lower-cased error text.
- **Configuration** (`SharePointConfig`): the site URL, the comma lists of
  sites, keywords, file extensions and OneDrive paths, the OneDrive path of
  an e-mail address, and the checks of the required settings.

The openpyxl helpers the range code imports are specified directly in
`cell_refs.dfy`. These are `column_index_from_string`, `get_column_letter`,
`coordinate_from_string` and the text of a merged range. Columns are
bijective base 26 (`A` = 1 … `ZZZ` = 18278) and rows start at 1.
`text.dfy` holds the Python string operations the code relies on.
`fallible.dfy` holds `Option` and `Result`; where the Python code raises,
the model returns `Err` or `None`.

The pure code is modelled as functions with lemmas. The code that fills
dictionaries or lists in loops is modelled as methods with loops:
`build_merged_cell_cache`, `_find_anchor_value_in_merge`,
`build_cell_size_cache`, `extract_cell_styles`, `parse_onedrive_paths` and
`validate`. Each such method is proved equal to a specification function,
and the lemmas about that function state what the source promises.

Verify with
`dafny verify --resource-limit 2000000 --verification-time-limit 0 --warn-contradictory-assumptions *.dfy`.

## Model

| member | source | states |
|---|---|---|
| CellRefs.ColumnIndexFromString | src/excel/range_calculator.py:100-105 | `column_index_from_string` accepts exactly one to three ASCII letters, ignoring case, and gives a column between 1 and 18278 |
| CellRefs.GetColumnLetter | src/excel/range_calculator.py:112-113 | `get_column_letter` is defined exactly for columns 1 to 18278, and its letters read back as the same column |
| CellRefs.ColumnIndexOfLetter | src/excel/range_calculator.py:112-113 | reading back the letters of column n gives n |
| CellRefs.ColumnLetterOfIndex | src/excel/range_calculator.py:100-113 | every non-empty run of capitals is the letters of exactly one column |
| CellRefs.ColumnLetterLength | src/excel/range_calculator.py:112-113 | every column up to 18278 is written with at most three letters |
| CellRefs.ColumnIndexBound | src/excel/range_calculator.py:100-105 | one to three capitals denote a column between 1 and 18278 |
| CellRefs.ColumnIndexFromStringLetters | src/excel/range_calculator.py:100-113 | the column a name denotes is written back as that name in upper case |
| CellRefs.CoordinateFromString | src/excel/range_calculator.py:52-53 | a parsed coordinate has one to three letters and a row of at least 1 |
| CellRefs.ParseLettersRow | src/excel/range_calculator.py:52-53 | letters followed by a decimal row parse back to those letters and that row |
| CellRefs.ParseCoordString | src/excel/merged_cell_handler.py:110 | the text `f"{get_column_letter(col)}{row}"` parses back to its column and row |
| CellRefs.CoordStringInjective | src/excel/merged_cell_handler.py:108-111 | distinct cells have distinct coordinate texts |
| CellRefs.RangeStringBounds | src/excel/merged_cell_handler.py:75 | the text of a merged range reads back as that range |
| CellRefs.RangeString | src/excel/merged_cell_handler.py:75 | `str(merged_range)` starts with the range's top-left cell |
| CellRefs.BoundsOfTwoCells | src/excel/range_calculator.py:115 | two cells joined by a colon read back as the block from the first to the second |
| CellRefs.SingleCellBounds | src/excel/merged_cell_handler.py:53-55 | a single cell reads back as a one-cell block |
| CellRefs.RangeStringInjective | src/excel/merged_cell_handler.py:114 | distinct merged ranges have distinct texts |
| RangeCalculator.EndsSplit | src/excel/range_calculator.py:45-49 | a text without a colon is the same cell twice; a text with a colon unpacks exactly when nothing after its first colon is another colon, into the texts before and after that colon |
| RangeCalculator.EndsTwoColons | src/excel/range_calculator.py:45-46 | `"A1:B2:C3"` does not unpack and gives the unpacking error |
| RangeCalculator.Cell | src/excel/range_calculator.py:52-53 | `coordinate_from_string` succeeds exactly on a cell, and otherwise fails with the coordinate error |
| RangeCalculator.ParsedBounds | src/excel/range_calculator.py:43-53 | a range's two ends parse exactly when the range reads back as a block, and they are that block's rows and columns |
| RangeCalculator.HeaderRange | src/excel/range_calculator.py:39-41 | no frozen rows means no header, whatever the range |
| RangeCalculator.HeaderRangeExamples | tests/excel/test_excel_range_calculator.py:15-35 | `"A5:D10"` with 2 frozen rows gives `"A1:D2"`, with 0 gives no header; `"A1:D10"` gives no header; `"A2:B6"` gives `"A1:B1"` |
| RangeCalculator.HeaderSingleCellExample | tests/excel/test_excel_range_calculator.py:37-41 | the single cell `"B5"` with 2 frozen rows gives `"B1:B2"` |
| RangeCalculator.Hull | src/excel/range_calculator.py:100-109 | per-axis min and max: the hull contains both ordered blocks, and every block containing both contains the hull |
| RangeCalculator.HeaderNone | src/excel/range_calculator.py:39-57 | no header exactly when there are no frozen rows or the range starts at row 1; with frozen rows the call fails exactly when the range does not parse |
| RangeCalculator.HeaderRows | src/excel/range_calculator.py:59-67 | the header spans rows 1 to min(start row − 1, frozen rows) across the range's start and end columns |
| RangeCalculator.HeaderLastRow | src/excel/range_calculator.py:59-67 | the last header row is the smaller of the row above the range and the last frozen row |
| RangeCalculator.HeaderOfCells | src/excel/range_calculator.py:55-67 | once both cells are read, there is no header exactly when the range starts at row 1 |
| RangeCalculator.HeaderBlock | src/excel/range_calculator.py:59-67 | once the cells are read, a range not starting at row 1 has a header spanning rows 1 to that last row across its start and end columns |
| RangeCalculator.HeaderCompletesRange | src/excel/range_calculator.py:35-37 | merging the header with an ordered range gives that range extended up to row 1 (`"A2:B6"`, 2 → `"A1:B6"`) |
| RangeCalculator.MergeRanges | src/excel/range_calculator.py:70-115 | a failed merge is an unpacking or a coordinate error, and a merge succeeds only when both ranges unpack |
| RangeCalculator.MergeRangesExample | tests/excel/test_excel_range_calculator.py:45-48 | `"A1:B2"` merged with `"A4:B6"` is `"A1:B6"` |
| RangeCalculator.MergeIsHull | src/excel/range_calculator.py:70-115 | the merge succeeds exactly when both ranges parse, and it is the text of their hull, which reads back as the hull |
| RangeCalculator.MergeError | src/excel/range_calculator.py:82-97 | a failed merge reports the unpacking error for a range with several colons, and the coordinate error otherwise |
| RangeCalculator.MergeSymmetric | src/excel/range_calculator.py:100-115 | `merge_ranges(a, b) == merge_ranges(b, a)`, errors included |
| RangeCalculator.MergeContainsBoth | src/excel/range_calculator.py:100-115 | for ordered ranges the merge contains both and is the least block that does |
| RangeCalculator.ExpandAxisRange | src/excel/range_calculator.py:134-135 | the empty range comes back unchanged |
| RangeCalculator.ExpandAxisRangeAsWritten | src/excel/range_calculator.py:133-164 | as written, the expansion gives back an empty range unchanged and raises only the coordinate error |
| RangeCalculator.ExpandPair | src/excel/range_calculator.py:145-164 | the colon branch fails only when an end is not a cell |
| RangeCalculator.ExpandSingleCellTotal | src/excel/range_calculator.py:138-143 | a spec without a colon never raises |
| RangeCalculator.ExpandKeepsNonCell | src/excel/range_calculator.py:138-143 | a single spec that is not a cell comes back unchanged |
| RangeCalculator.ExpandSingleCell | src/excel/range_calculator.py:138-141 | a single cell becomes its column from row 1 down to that cell |
| RangeCalculator.ExpandMarkedCell | src/excel/range_calculator.py:140-141 | the `$` marks of a single cell are dropped: `"$C$5"` becomes `"C1:C5"` |
| RangeCalculator.ExpandColumnExample | tests/excel/test_excel_range_calculator.py:72-75 | `"Z100:Z200"` is extended to `"Z1:Z200"` |
| RangeCalculator.ExpandSameColumn | src/excel/range_calculator.py:152-156 | an ordered same-column range is extended up to row 1, keeping its end |
| RangeCalculator.ExpandSameRow | src/excel/range_calculator.py:158-162 | an ordered same-row range is extended left to column A, keeping its end |
| RangeCalculator.ExpandUnchanged | src/excel/range_calculator.py:152-164 | reversed ranges and blocks spanning several rows and columns come back exactly as given |
| RangeCalculator.ExpandPairFails | src/excel/range_calculator.py:145-150 | a colon spec raises exactly when one of its halves, `$` removed, is not a cell |
| RangeCalculator.ExpandAgrees | src/excel/range_calculator.py:134-164 | wherever the code as written does not raise, it agrees with the corrected version |
| RangeCalculator.C0NotACell | src/excel/range_calculator.py:137-140 | `"C0"` has no colon and no `$`, and is not a cell because its row is 0 |
| RangeCalculator.ExpandAsWrittenRaises | src/excel/range_calculator.py:138-143 | the code as written raises on `"C0"` instead of returning it unchanged |
| RangeCalculator.RangeSizeExample | tests/excel/test_excel_range_calculator.py:105-109 | `"A1:D10"` spans 10 rows and 4 columns |
| RangeCalculator.RangeSizeCases | src/excel/range_calculator.py:178-204 | (1, 1) without a colon; rows and columns of the block, both at least 1, for an ordered range; (0, 0) for a reversed or unparsable range |
| RangeCalculator.RangeSize | src/excel/range_calculator.py:178-204 | the counts are never negative, and one is 0 exactly when the other is |
| RangeCalculator.RangeSizeOfBounds | src/excel/range_calculator.py:197-200 | an ordered colon range has the size of its block |
| RangeCalculator.RangeSizeOfRangeString | src/excel/range_calculator.py:178-200 | the text of a block has the size of that block |
| RangeCalculator.NormalizeColumnRange | src/excel/range_calculator.py:221-223 | blank or whitespace-only input comes back unchanged |
| RangeCalculator.NormalizePairTooLong | src/excel/range_calculator.py:230-236 | a letters-only pair fails on a column name of more than three letters, and only then |
| RangeCalculator.NormalizePairReversed | src/excel/range_calculator.py:233-241 | a pair of valid names raises exactly when reversed (`"K:J"`), and otherwise is `C1:D<max_row>` upper-cased |
| RangeCalculator.NormalizePairBlock | src/excel/range_calculator.py:241 | an ordered column pair becomes the block of those columns from row 1 to `max_row` (`"A:C"`, 1 → `"A1:C1"`) |
| RangeCalculator.NormalizePairSize | src/excel/range_calculator.py:241 | that block spans `max_row` rows and the columns of the pair |
| RangeCalculator.NormalizeSingleColumn | src/excel/range_calculator.py:243-247 | a bare column of any number of letters becomes that column, upper-cased, from row 1 to `max_row`; for a name of at most three letters and `max_row` at least 1 that text reads back as the column's block |
| RangeCalculator.NormalizeBareColumn | src/excel/range_calculator.py:243-247 | a letters-only spec, such as `"j"` or `"ABCD"`, becomes `X1:X<max_row>` with `X` its upper case |
| RangeCalculator.NormalizeColumnExamples | tests/excel/test_excel_range_calculator.py:159-162 | `"j"` with 100 rows gives `"J1:J100"`, and the four-letter `"ABCD"` with 10 rows gives `"ABCD1:ABCD10"` |
| RangeCalculator.SizeOfTwoCells | src/excel/range_calculator.py:178-200 | an ordered two-cell range has as many rows and columns as the cells span |
| RangeCalculator.TwoCellsFixed | src/excel/range_calculator.py:221-249 | a range from row 1 that normalisation produced is left unchanged by it |
| RangeCalculator.NormalizePassThrough | src/excel/range_calculator.py:249 | every spec that is neither blank nor letters comes back unchanged |
| RangeCalculator.NormalizeIdempotent | src/excel/range_calculator.py:221-249 | normalising a normalised spec changes nothing |
| MergedCellHandler.FindAnchorValueInMerge | src/excel/merged_cell_handler.py:152-191 | the loops find the least non-null cell of the merge in (row, col) order with its value, and the top-left cell with no value when there is none |
| MergedCellHandler.SearchAnchor | src/excel/merged_cell_handler.py:152-191 | the search finds a value exactly when some cell of the merge has a non-null value |
| MergedCellHandler.ScanIndexed | src/excel/merged_cell_handler.py:159-170 | the `_cells` scan, in any order, ends with the least candidate and its value |
| MergedCellHandler.ScanMerge | src/excel/merged_cell_handler.py:171-181 | the row-by-row scan ends with the least candidate and its value |
| MergedCellHandler.FillIntersection | src/excel/merged_cell_handler.py:108-111 | the nested loop maps every cell of the intersection to the range text |
| MergedCellHandler.FillAt | src/excel/merged_cell_handler.py:108-111 | after the fill a cell of the block maps to the range text, and any other cell keeps its entry |
| MergedCellHandler.FillKeys | src/excel/merged_cell_handler.py:108-111 | the fill adds no key except the texts of the block's cells |
| MergedCellHandler.ResolveAnchor | src/excel/merged_cell_handler.py:92-105 | the anchor is the top-left cell when its value is non-null, else the search's result |
| MergedCellHandler.VisitMerges | src/excel/merged_cell_handler.py:74-122 | the loop over merged ranges builds the three results one range at a time, in order |
| MergedCellHandler.BuildMergedCellCache | src/excel/merged_cell_handler.py:39-127 | the method returns the specification's cache, with the target error when an end of the target is not a cell |
| MergedCellHandler.PlannedRange | src/excel/merged_cell_handler.py:43-45 | the planned range, when there is one, is never empty |
| MergedCellHandler.TargetBounds | src/excel/merged_cell_handler.py:51-69 | the target, when it parses, is a valid block |
| MergedCellHandler.TargetSymmetric | src/excel/merged_cell_handler.py:57-69 | the order of the target's two ends does not matter |
| MergedCellHandler.TargetOfCells | src/excel/merged_cell_handler.py:51-69 | a target written as two cells is the block they span, taken in order per axis |
| MergedCellHandler.TargetOfCell | src/excel/merged_cell_handler.py:53-55 | a target written as one cell is that cell |
| MergedCellHandler.InIntersect | src/excel/merged_cell_handler.py:84-89 | a cell is in the intersection exactly when it is in both the merge and the target |
| MergedCellHandler.Intersect | src/excel/merged_cell_handler.py:84-87 | the intersection starts no earlier and ends no later than both the merge and the target, on each axis |
| MergedCellHandler.MergeAnchor | src/excel/merged_cell_handler.py:92-103 | a merge has no anchor value exactly when its top-left value is null and no cell of it has a non-null value |
| MergedCellHandler.CacheSpec | src/excel/merged_cell_handler.py:44-127 | in a successful result the two maps are absent exactly when the list is empty, and both together |
| MergedCellHandler.RangeStartIsTopLeft | src/excel/merged_cell_handler.py:76 | `str(merged_range).split(":")[0]` is the merge's top-left cell |
| MergedCellHandler.CacheEmpty | src/excel/merged_cell_handler.py:43-48 | `(None, None, [])` without merged ranges, or without an effective range and without dimensions |
| MergedCellHandler.CacheNoneMeets | src/excel/merged_cell_handler.py:124-125 | `(None, None, [])` when no merged range meets the target |
| MergedCellHandler.CacheSomeMeets | src/excel/merged_cell_handler.py:124-127 | a merged range meeting the target gives both maps and a non-empty list |
| MergedCellHandler.FoldRangesEmpty | src/excel/merged_cell_handler.py:88-89 | the list is empty exactly when no merged range meets the target |
| MergedCellHandler.CellMapKeys | src/excel/merged_cell_handler.py:84-111 | a cell is a key of the coordinate map exactly when it is in the target and in some merged range |
| MergedCellHandler.CellMapInTarget | src/excel/merged_cell_handler.py:108-111 | every key of the coordinate map names a cell of the target |
| MergedCellHandler.CellMapValue | src/excel/merged_cell_handler.py:111 | a cached cell maps to the text of the last merged range holding it |
| MergedCellHandler.RangesOfMeeting | src/excel/merged_cell_handler.py:113-122 | the list has one entry per merged range meeting the target, in order, each with its range text and anchor |
| MergedCellHandler.AnchorMapKeys | src/excel/merged_cell_handler.py:113-114 | the anchor map's keys are exactly the range texts of the list |
| MergedCellHandler.AnchorMapAgrees | src/excel/merged_cell_handler.py:114-122 | each entry's anchor value is the one recorded under its range text |
| MergedCellHandler.NonMeetingIgnored | src/excel/merged_cell_handler.py:88-89 | a merged range not meeting the target changes none of the three results, wherever it is listed |
| MergedCellHandler.CandidatesAgree | src/excel/merged_cell_handler.py:159-181 | when a missing cell serializes to null, both scans consider the same cells |
| MergedCellHandler.ScansAgree | src/excel/merged_cell_handler.py:159-181 | the indexed scan and the fallback choose the same anchor coordinate and value |
| MergedCellHandler.AnchorIsFirstNonNull | src/excel/merged_cell_handler.py:92-105 | the anchor is the first non-null cell of the merge in row-major order, and the top-left cell with no value when all are null |
| MergedCellHandler.LeastExists | src/excel/merged_cell_handler.py:168-170 | every non-empty set of cells has a least cell in tuple order |
| MergedCellHandler.LeastUnique | src/excel/merged_cell_handler.py:168-170 | the least cell of a set is unique, so the anchor does not depend on the scan order |
| MergedCellHandler.ScanMember | src/excel/merged_cell_handler.py:173-181 | the fallback scan considers exactly the cells of the merge whose serialized value is not null |
| MergedCellHandler.BlockOfEnds | src/excel/merged_cell_handler.py:57-69 | the block spanned by two ends, when both parse, is a valid block |
| MergedCellHandler.BlockOfEndsSymmetric | src/excel/merged_cell_handler.py:66-69 | the order of the two ends does not matter |
| MergedCellHandler.Meeting | src/excel/merged_cell_handler.py:84-89 | the merged ranges that meet the target, and only those |
| PaneManager.Trunc | src/excel/pane_manager.py:37-38 | `int(x)` truncates toward zero |
| PaneManager.NoFrozenPane | src/excel/pane_manager.py:31-36 | (0, 0) without a sheet view or pane, or for a pane whose state is neither `"frozen"` nor `"frozenSplit"` |
| PaneManager.FrozenFromSplits | src/excel/pane_manager.py:37-39 | the counts are the whole parts of `ySplit` and `xSplit`, and 0 when unset |
| PaneManager.GetFrozenPanes | src/excel/pane_manager.py:18-42 | anything frozen means a sheet view with a pane in a frozen state |
| PaneManager.FrozenIgnoresTopLeft | src/excel/pane_manager.py:20-23 | the counts do not depend on `topLeftCell` |
| PaneManager.FormatFreezePanes | src/excel/pane_manager.py:56-57 | a text exactly when `get_column_letter(cols + 1)` is defined |
| PaneManager.FormatFreezePanesCell | src/excel/pane_manager.py:56-57 | the text is the cell in row `rows + 1` and column `cols + 1`, and parses back as that cell |
| PaneManager.FormatOfFrozen | src/excel/pane_manager.py:18-57 | the freeze-pane text of a sheet's counts reads back as those counts, each one more |
| PaneManager.FormatNoFreeze | src/excel/pane_manager.py:56-57 | (0, 0) gives `"A1"` |
| PaneManager.FormatTwoRowsOneColumn | src/excel/pane_manager.py:56-57 | (2, 1) gives `"B3"` |
| PaneManager.FormatHundredRows | src/excel/pane_manager.py:56-57 | (100, 25) gives `"Z101"` |
| PaneManager.ValidatedWithinLimit | src/excel/pane_manager.py:66-78 | for a limit of at least 0 the count lies in [0, limit]; the check fails exactly above the limit, which gives 0; a negative count passes as 0; a passing non-negative count is kept |
| PaneManager.ValidateFrozenRows | src/excel/pane_manager.py:60-78 | the check fails only for a non-negative count above the limit; the count kept is never negative and is the given count or 0 |
| PaneManager.ValidateFrozenRowsCases | src/excel/pane_manager.py:73-78 | for every limit: a negative count gives (true, 0), a count above the limit (false, 0), any other count (true, count) |
| PaneManager.ValidateFrozenRowsExamples | tests/excel/test_excel_pane_manager.py:153-179 | with limit 100: 50 → (true, 50), 100 → (true, 100), 150 → (false, 0), 0 → (true, 0), −1 → (true, 0) |
| StyleExtractor.ColorToHex | src/excel/style_extractor.py:26-39 | a colour text, when there is one, is at least seven characters long |
| StyleExtractor.HexOfRgb | src/excel/style_extractor.py:29-33 | the text starts with `#` exactly for an rgb colour with at least six characters, and is `#` and its last six, dropping the alpha channel |
| StyleExtractor.HexOfTheme | src/excel/style_extractor.py:35-37 | a theme colour gives `theme_` and its number, which reads back |
| StyleExtractor.HexAbsent | src/excel/style_extractor.py:26-39 | `None` exactly for no colour, another type, or an rgb colour without six characters |
| StyleExtractor.HexOpaqueRed | src/excel/style_extractor.py:30-33 | `"FFFF0000"` gives `"#FF0000"` |
| StyleExtractor.HexHalfTransparentRed | src/excel/style_extractor.py:30-33 | `"80FF0000"` gives `"#FF0000"` |
| StyleExtractor.HexThemeOne | src/excel/style_extractor.py:35-37 | theme 1 gives `"theme_1"` |
| StyleExtractor.KeepSetSizes | src/excel/style_extractor.py:57-63 | the loop keeps exactly the entries whose size is set and non-zero, each with that size |
| StyleExtractor.BuildCellSizeCache | src/excel/style_extractor.py:54-65 | the caches hold exactly the columns with a set width and the rows with a set height, each with its size |
| StyleExtractor.ExtractCellStyles | src/excel/style_extractor.py:84-110 | `fill` exactly for a set pattern type, with the colour texts; width and height only for a placed cell whose key is in a given cache, with that value; no sizes for a merged interior cell; an empty record without fill and caches |
| ErrorMessages.CategoryValueInjective | src/error_messages.py:9-18 | distinct categories have distinct values |
| ErrorMessages.FormattedMessage | src/error_messages.py:37-39 | the formatted message is as long as message, one space and solution |
| ErrorMessages.FormattedMessageParts | src/error_messages.py:37-39 | the formatted message is the message, one space, then the solution |
| ErrorMessages.ContainsAny | src/error_messages.py:177-205 | `any(k in s for k in keys)` holds exactly when some keyword occurs |
| ErrorMessages.GetAuthenticationError | src/error_messages.py:42-66 | the error is an authentication error for the given exception |
| ErrorMessages.GetAuthorizationError | src/error_messages.py:69-76 | the error is an authorization error for the given exception |
| ErrorMessages.GetNetworkError | src/error_messages.py:79-103 | the error is a network error for the given exception |
| ErrorMessages.GetSearchQueryError | src/error_messages.py:106-113 | the error is a search-query error for the given exception |
| ErrorMessages.GetFileNotFoundError | src/error_messages.py:116-130 | the error is a file-not-found error for the given exception |
| ErrorMessages.GetConfigurationError | src/error_messages.py:133-140 | the error is a configuration error for the given exception |
| ErrorMessages.GetUnknownError | src/error_messages.py:143-150 | the error is an unknown error for the given exception |
| ErrorMessages.AuthenticationMessageOrder | src/error_messages.py:44-66 | certificate or private_key first, then 401 or unauthorized, then the generic message |
| ErrorMessages.NetworkMessageOrder | src/error_messages.py:81-103 | timeout first, then connection, then the generic message |
| ErrorMessages.FileNotFoundMessagePath | src/error_messages.py:120-123 | a non-empty path ends the message and reads back from it; otherwise the generic message |
| ErrorMessages.HandleSharePointError | src/error_messages.py:153-207 | the result always wraps the given exception |
| ErrorMessages.FirstFiring | src/error_messages.py:177-207 | the category of the first firing row is Unknown or that of some row |
| ErrorMessages.HandleFollowsTable | src/error_messages.py:164-207 | the category is the status code's when it decides one, and otherwise that of the first keyword row that fires on the lower-cased text |
| ErrorMessages.TableInOrder | src/error_messages.py:177-207 | the table read in the order auth, authorization, network, search query, not found, configuration, and then unknown |
| ErrorMessages.FirstFiringAt | src/error_messages.py:177-207 | each row fires or defers to the rows after it |
| ErrorMessages.HandleUsesCategoryBuilder | src/error_messages.py:167-207 | the message and solution are those of the category's builder, with no path for a file not found |
| ErrorMessages.StatusFirst | src/error_messages.py:167-174 | 401 gives authentication and 403 authorization, whatever the text; 404 gives file-not-found only in the download context |
| ErrorMessages.SearchOnlyWhenSearching | src/error_messages.py:191-195 | a search-query error only comes from the search context |
| ErrorMessages.FileNotFoundOnlyWhenDownloading | src/error_messages.py:173-200 | a file-not-found error only comes from the download context |
| ErrorMessages.UnknownIsFallback | src/error_messages.py:206-207 | Unknown exactly when neither the status nor any keyword row decides |
| ErrorMessages.AuthKeywordShadows | src/error_messages.py:177-186 | without a deciding status, a text holding `auth` is an authentication error even when it also names a permission or 403 |
| Config.SiteUrl | src/config.py:52-57 | the site URL starts with the base URL |
| Config.SiteUrlParts | src/config.py:55-57 | base URL, `/sites/` and the site name when one is set; otherwise the base URL |
| Config.Cleaned | src/config.py:71 | at most one item per piece, none of them empty |
| Config.CleanedMember | src/config.py:71 | the items are exactly the non-blank trimmed pieces |
| Config.CleanedItems | src/config.py:90 | each item is non-blank, without a comma and without surrounding whitespace |
| Config.CleanedOfClean | src/config.py:90 | cleaning clean items keeps them all, in order |
| Config.CommaEntriesOfJoin | src/config.py:90 | joining clean items with commas and reading the list back gives the items, in order |
| Config.CommaEntriesClean | src/config.py:106-108 | every item of a comma-separated setting is clean |
| Config.PlainSites | src/config.py:92 | no more sites than items |
| Config.Sites | src/config.py:85-92 | no more sites than items in the site name |
| Config.IncludeOnedrive | src/config.py:75-82 | including OneDrive needs OneDrive paths, and the keyword is never taken as a site |
| Config.HasMultipleTargets | src/config.py:65-72 | OneDrive or more than one site means several targets |
| Config.IsSiteSpecific | src/config.py:60-62 | a site-specific configuration names at most one site and does not include OneDrive |
| Config.PlainSitesMember | src/config.py:92 | the sites are the items not starting with `@` |
| Config.SitesMember | src/config.py:84-92 | the sites are the items of the site name that are not keywords |
| Config.PlainSitesOfPlain | src/config.py:92 | plain names are all kept, in order |
| Config.SitesOfNames | src/config.py:84-92 | a site name made of plain names gives back those names, in order |
| Config.SingleSite | src/config.py:52-92 | one plain site name: that site only, site-specific, no OneDrive, and its URL under `/sites/` |
| Config.KeywordAlone | src/config.py:84-92 | a site name that is a single keyword names no site |
| Config.AllKeyword | src/config.py:64-72 | `@all` among the items gives several targets |
| Config.OnedriveKeyword | src/config.py:74-82 | with `@onedrive` among the items, OneDrive is included exactly when OneDrive paths are set |
| Config.EntriesNotEmpty | src/config.py:67-68 | a setting with items is not empty |
| Config.SiteSpecificHasOneSite | src/config.py:59-72 | a site-specific setting names at most one site, has no `@all` and no OneDrive |
| Config.LowerAll | src/config.py:98 | one lower-cased extension per item, in order |
| Config.ParseFileExtensions | src/config.py:94-98 | one extension per non-blank item, each the lower-cased item at its place |
| Config.ParseFileExtensionsAll | src/config.py:94-98 | the extensions are all the items of the setting, in order and with repeats, lower-cased |
| Config.ExtensionsKeepRepeats | src/config.py:98 | `"pdf,PDF"` gives `["pdf", "pdf"]`: a repeat is kept |
| Config.LowerUnchanged | src/config.py:98 | lower-casing text without capitals changes nothing |
| Config.ExtensionsOfJoin | src/config.py:94-98 | parsing a comma list of clean lower-case extensions gives them back, in order |
| Config.ExtensionsClean | src/config.py:94-98 | each extension is non-blank, lower-case and without a comma, and there are no more of them than pieces |
| Config.ExtensionsMember | src/config.py:98 | the extensions are the lower-cased items of the setting |
| Config.ParseEntry | src/config.py:111-119 | an entry without a colon is all e-mail, trimmed, with no folder; with a colon, the e-mail and folder are the trimmed text before and after its first colon |
| Config.EmailToOnedrivePath | src/config.py:138-151 | the path starts with `personal/` and is at least that plus the e-mail long |
| Config.OnedrivePathParts | src/config.py:138-151 | `personal/`, the e-mail with `@` and `.` turned into `_` and every other character kept, then `/` and the folder without leading slashes exactly when some of it is left |
| Config.ParseOnedrivePaths | src/config.py:100-136 | nothing for an empty setting; otherwise the targets of the entries, in order |
| Config.CollectTargets | src/config.py:110-134 | the loop appends one target per entry whose e-mail has an `@`, in order |
| Config.EntryTarget | src/config.py:111-134 | one turn of the loop: the entry's e-mail and folder and its target, or nothing without `@` |
| Config.GetOnedriveTargets | src/config.py:153-158 | the OneDrive targets exactly when OneDrive is included, otherwise none |
| Config.TargetsOfAppend | src/config.py:110-134 | the targets of two lists of entries, one after the other, are their targets in that order |
| Config.TargetsOfMember | src/config.py:121-134 | a target comes from an entry whose e-mail has `@`, with that e-mail's OneDrive path, and every such entry gives one |
| Config.Validate | src/config.py:160-189 | the checks, in order, produce exactly the validation errors |
| Config.ValidationErrors | src/config.py:160-189 | a missing base URL is the first error; no error means base URL, tenant and client are all set |
| Config.IsValid | src/config.py:192-194 | a valid configuration has base URL, tenant and client set, and each credential given as a path or as text |
| Config.CheckCredential | src/config.py:173-187 | one credential check appends at most one error: neither path nor text, or a path naming no file |
| Config.MessageMarks | src/config.py:164-189 | the messages of `validate` differ in fixed characters |
| Config.BaseUrlReported | src/config.py:164-165 | a missing base URL is reported, and only then |
| Config.TenantIdReported | src/config.py:167-168 | a missing tenant id is reported, and only then |
| Config.ClientIdReported | src/config.py:170-171 | a missing client id is reported, and only then |
| Config.CertificateReported | src/config.py:174-177 | a certificate with neither path nor text is reported, and only then |
| Config.PrivateKeyReported | src/config.py:182-185 | a private key with neither path nor text is reported, and only then |
| Config.MissingCertificateFileReported | src/config.py:178-179 | a certificate path naming no file is reported even when the text is set |
| Config.IsValidIff | src/config.py:191-194 | valid exactly when every required setting is present and each credential path given names a file |
| Config.AtMostFiveErrors | src/config.py:160-189 | at most one error per required setting and credential |

## Left out

- I/O and the environment. `load_dotenv` and `os.getenv` are not modelled: the settings are a record of strings, and an unset variable is the empty string. `default_max_results`, the allowed extensions' default text and the tool descriptions are not modelled.
- `Path(p).exists()` in `validate` is the parameter `fileExists`.
- Logging calls are left out everywhere.
- The server, the search and Excel REST clients, authentication, the command line and the scripts are not part of this model.
- The extraction orchestrator that calls these helpers is not part of this model.
- openpyxl's worksheet, `MergedCell`, `Color`, `PatternFill` and dimension objects are abstract records holding only the fields the helpers read.
- The helpers `column_index_from_string`, `get_column_letter` and `coordinate_from_string` are specified directly as openpyxl documents them, not taken from its source.
- `sheet.merged_cells.ranges` is a set and its iteration order is Python's. The model takes it as a sequence of distinct ranges in a fixed order. Which range a cell of two overlapping merges maps to therefore depends on that order (`CellMapValue`: the last one).
- `sheet._cells` is visited in any order (`ScanIndexed` picks any remaining key). The value serializer is a parameter function, and `ScansAgree` needs it to map a missing value to null.
- Widths, heights and split counts are floating-point numbers. The model uses reals that are only compared with zero, truncated or copied; no rounding is modelled.
- Case mapping, `isalpha` and `lower` are ASCII only. Python maps non-ASCII letters too.
- `str.isspace` is modelled by its fixed list of code points.
- CellRefs.CoordinateFromString: openpyxl matches with `re.match` and a pattern ending in `(\d+)$`. Python's `$` also matches before one final `"\n"`, and `\d` matches any Unicode decimal digit, which `int()` then reads. The model accepts only ASCII digits up to the end of the string, so `"B2\n"` and `"B٢"` are not cells here, though openpyxl reads both as `("B", 2)`. Through it, `RangeCalculator.RangeSize` gives `(0, 0)` for `"A1:B2\n"` where the source gives `(2, 2)`, and `RangeCalculator.MergeRanges` fails on `"A1:B2\n"` where the source succeeds. These inputs would need the regular-expression engine's line-end and Unicode-digit rules, which the model does not describe.
- Python default arguments are modelled as required parameters: `context: str = ""` of `handle_sharepoint_error` (ErrorMessages.HandleSharePointError) and `folder_path: str = ""` of `_email_to_onedrive_path` (Config.EmailToOnedrivePath). Passing `""` gives the default.
- PaneManager.GetFrozenPanes: the model represents an exception while reading the pane only as a missing sheet view. Other attribute errors of a malformed object are not modelled.
- StyleExtractor.ColorToHex: an `rgb` value that is not a string is modelled as a missing one. Both give no text.
- ErrorMessages.HandleSharePointError: the error is modelled as its text and optional status code. A `response` without `status_code`, and `str(error)` of arbitrary objects, are not separately modelled.
- ErrorMessages.HandleSharePointError: there are no worked examples on concrete message texts. The classification properties are stated for every text instead.
- `SharePointError` being a Python exception (`super().__init__`) is modelled only through `FormattedMessage`, which is its text.
- The `excel_context` keyword that the Excel client passes to `handle_sharepoint_error` is not accepted by that function and is not modelled.
- MergedCellHandler.BuildMergedCellCache: it requires the openpyxl invariant that merged ranges are valid, distinct blocks, which the library maintains.

## Findings

| source | as written | input that shows it | evidently intended | confidence | as-written member | corrected member |
|---|---|---|---|---|---|---|
| src/excel/range_calculator.py:138-143 | an unparsable single cell is caught with `except ValueError`, but `coordinate_from_string` raises `CellCoordinatesException`, which is not a `ValueError`, so the exception escapes | `expand_axis_range("C0")` (row 0 is not a cell) | an unparsable single cell comes back unchanged, as the handler's `return range_str` says | not executed | RangeCalculator.ExpandAsWrittenRaises | RangeCalculator.ExpandKeepsNonCell |
