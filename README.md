# Table extraction and comparison — a Dafny model

This project models the logic of the table-processing tools. Document and workbook I/O is stripped out.

`table_processing/excel_tables_comparison.py` compares two workbooks sheet by sheet:

- The sheet with fewer cells is padded with empty cells to the other sheet's shape (`smaller_df_to_larger_df`).
- A boolean mask marks the matching cells.
- Correct and incorrect cells are counted and turned into percentages.
- The per-sheet "% correct" values are summarised by mean, median, minimum, maximum and range.

`table_processing/tbl_extraction.py` names the tables and paragraphs it extracts from docx, pptx and xlsx files:

- Sheet names are `<stem[:20]>_tbl_<n>`; paragraph keys are `<stem>_para_<k>`.
- It scores every pair of tables or paragraphs.
- It applies the `tbl_match` and `para_match` thresholds.
- It resolves each short key back to a file name (`replace`, `replace_para`).

`tests/test_table_tools.py` pins down `within_threshold`, `remove_duplicate_limits`, the row/column limit recipe of `_calculate_row_column_limits` and `clean_cell_text`.

Files:

- `wrappers.dfy`: `Option` and `Result`.
- `strings.dfy`: ASCII lower-casing, prefixes and substrings, `split`/`rsplit` on the first or last separator, decimal rendering of counters with its parse round trip, and whitespace trimming.
- `sorting.dfy`: a functional insertion sort, and the fact that a sorted permutation is unique.
- `table_comparison.dfy`: cells, frames, padding, masks, counts, workbook comparison and statistics.
- `tbl_extraction.dfy`: extension/stem, sheet names, paragraph keys, key resolution, thresholds, `getText` and the pairwise comparison loops.
- `table_tools.dfy`: threshold test, duplicate-limit removal, the limit recipe and cell-text cleaning.

Code that changes state step by step is modelled as methods with loops, each proved equal to a specification function, or pointwise equal to one (the sheet-naming loops). This covers padding into a fresh 2-D array, the sheet loop, the `getText` append loop, the sheet-naming loops, the nested comparison loops, the duplicate-limit scan and the append/sort/pop recipe. The properties are then proved about those functions.

## Model

| member | source | states |
|---|---|---|
| TableComparison.Padded | table_processing/excel_tables_comparison.py:128-139 | The padded frame is well formed and has exactly the larger frame's row and column counts. |
| TableComparison.SmallerToLarger | table_processing/excel_tables_comparison.py:133-139 | Fills a fresh grid of the larger shape. A cell inside the smaller frame's row/column range holds the smaller frame's value; every other cell is empty. The grid equals `Padded`. |
| TableComparison.GridCells | table_processing/excel_tables_comparison.py:134 | Reading a 2-D grid back gives a rectangular table of its dimensions. |
| TableComparison.MaskOf | table_processing/excel_tables_comparison.py:38-55 | The mask has one entry per cell of the compared shape. |
| TableComparison.CompareSheet | table_processing/excel_tables_comparison.py:38-62 | One iteration of the sheet loop. Equal shapes always compare. A successful comparison writes a well-formed table with as many cells as the larger frame, and its mask has the written table's shape. |
| TableComparison.SameShapeMask | table_processing/excel_tables_comparison.py:38-39 | Equal shapes: the comparison succeeds, and a mask entry is true exactly when the comparison cell is non-empty and equals the original cell. Two empty cells never match. |
| TableComparison.DifferentShapeMask | table_processing/excel_tables_comparison.py:40-55 | Different shapes: the mask has the larger frame's shape. Inside the smaller range, cells match after empties become `'blank'`. Outside it, a larger cell matches exactly when it is empty or the literal `'blank'`. |
| TableComparison.TieTakesComparison | table_processing/excel_tables_comparison.py:41-46 | On equal cell counts with different shapes, the comparison frame is taken as the larger one. |
| TableComparison.CompareSheetFails | table_processing/excel_tables_comparison.py:41-48 | A sheet comparison fails exactly when the shapes differ and the smaller frame's labels do not all occur in the larger one. A missing row label makes the `.loc` write at line 137 raise; a missing column label is added by `.loc`, and the `==` at line 55 then raises on the differently labelled frames. |
| TableComparison.WrittenTable | table_processing/excel_tables_comparison.py:61-62 | The written table is the comparison frame, padded to the original's shape only when the original has more cells. The mask has the written table's shape. |
| TableComparison.CountRow | table_processing/excel_tables_comparison.py:78 | The matches counted in a row are at most the row's length. |
| TableComparison.CountTrueBound | table_processing/excel_tables_comparison.py:77-78 | The number of true mask entries is at most rows × columns. |
| TableComparison.ReportOf | table_processing/excel_tables_comparison.py:77-86 | `num_cells` is the written table's size, `num_true` is at most `num_cells`, and correct plus incorrect equals `num_cells`. |
| TableComparison.SelfComparison | table_processing/excel_tables_comparison.py:38-78 | Comparing a sheet with itself counts exactly its non-empty cells as correct, so empty cells are reported as incorrect. |
| TableComparison.CountTrueNonEmpty | table_processing/excel_tables_comparison.py:78 | Row-wise agreement of true counts with non-empty counts lifts to the whole table. |
| TableComparison.PercentCorrect | table_processing/excel_tables_comparison.py:79 | Undefined (NaN) exactly for an empty sheet. Otherwise it lies in [0, 100] and is 100 exactly when every cell matched. |
| TableComparison.PercentDifferent | table_processing/excel_tables_comparison.py:80 | Undefined exactly for an empty sheet. Otherwise it is 100 × incorrect / cells. |
| TableComparison.PercentagesComplement | table_processing/excel_tables_comparison.py:79-80 | For a non-empty sheet, % correct and % different add up to 100. |
| TableComparison.Lookup | table_processing/excel_tables_comparison.py:33-35 | Finds a sheet exactly when some sheet of the workbook has that name, and returns that sheet's frame. |
| TableComparison.CompareWorkbooks | table_processing/excel_tables_comparison.py:32-106 | The sheet loop computes the workbook comparison function. |
| TableComparison.CompareAll | table_processing/excel_tables_comparison.py:32-106 | The reports of the sheet loop, in order; a successful run has at most one report per comparison sheet. |
| TableComparison.CompareAllNames | table_processing/excel_tables_comparison.py:32-106 | Reports are produced for exactly the sheets whose names occur in both workbooks, in the comparison workbook's order. |
| TableComparison.CompareAllFails | table_processing/excel_tables_comparison.py:32-48 | The run fails exactly when some shared sheet's comparison fails. |
| TableComparison.CompareAllBounded | table_processing/excel_tables_comparison.py:77-78 | Every report of a successful run has correct ≤ cells. |
| TableComparison.MinOf | table_processing/excel_tables_comparison.py:111 | The minimum is an element of the list and lies at or below every element. |
| TableComparison.MaxOf | table_processing/excel_tables_comparison.py:112 | The maximum is an element of the list and lies at or above every element. |
| TableComparison.Mean | table_processing/excel_tables_comparison.py:109 | The mean lies between the minimum and the maximum. |
| TableComparison.Middle | table_processing/excel_tables_comparison.py:110 | The middle entry of a sorted list (or the mean of the two middle entries) lies between its first and last entries. |
| TableComparison.Median | table_processing/excel_tables_comparison.py:110 | The median lies between the minimum and the maximum. |
| TableComparison.MedianPermutationInvariant | table_processing/excel_tables_comparison.py:110 | The median does not depend on the order of the sheets. |
| TableComparison.Summarize | table_processing/excel_tables_comparison.py:108-113 | Empty score list: error. A NaN score: no statistics. Otherwise min ≤ median, mean ≤ max; range = max − min ≥ 0; min and max are attained. |
| TableComparison.CompareTables | table_processing/excel_tables_comparison.py:32-113 | Succeeds exactly when every shared sheet compares and at least one is shared. The reports are those of the workbook comparison, and the statistics summarise their % correct. |
| TableExtraction.Extension | table_processing/tbl_extraction.py:47 | The extension contains no dot. |
| TableExtraction.StemAndExtension | table_processing/tbl_extraction.py:47-53 | With a dot, stem + "." + extension is the lower-cased name. Without one, stem and extension both equal the lower-cased name. |
| TableExtraction.Stem | table_processing/tbl_extraction.py:53 | The stem is a prefix of the lower-cased name, strictly shorter than the name when it has a dot. |
| TableExtraction.ExtensionExample | table_processing/tbl_extraction.py:47-53 | `Minutes.DOCX` has extension `docx` and stem `minutes`. |
| TableExtraction.Head20 | table_processing/tbl_extraction.py:67 | `doc[:20]` is a prefix of the stem of exactly min(20, length of the stem) characters. |
| TableExtraction.SheetName | table_processing/tbl_extraction.py:67 | The sheet name `doc[:20] + "_tbl_" + str(count)` starts with `doc[:20]` followed by `_tbl_`, and at least one character (the counter's digits) follows. |
| TableExtraction.SheetNameCount | table_processing/tbl_extraction.py:67 | The counter reads back from the digits after `doc[:20] + "_tbl_"`. |
| TableExtraction.ParaKey | table_processing/tbl_extraction.py:181 | The key `docName + "_para_" + str(x)` starts with the stem followed by `_para_`, and at least one character (the index's digits) follows. |
| TableExtraction.ParaKeyIndex | table_processing/tbl_extraction.py:181 | The paragraph index reads back from the digits after `<stem>_para_`. |
| TableExtraction.SheetNameInjective | table_processing/tbl_extraction.py:67 | Two sheet names of one document are equal exactly when their counters are equal. |
| TableExtraction.ParaKeyInjective | table_processing/tbl_extraction.py:181 | Two paragraph keys of one document are equal exactly when their indices are equal. |
| TableExtraction.SheetNameKey | table_processing/tbl_extraction.py:212 | Splitting a sheet name at the first `_tbl` gives back `doc[:20]`, provided that does not itself contain `_tbl`. |
| TableExtraction.ParaKeyKey | table_processing/tbl_extraction.py:195 | Splitting a paragraph key at the first `_para` gives back the stem, provided the stem does not contain `_para`. |
| TableExtraction.HeadMatchesIsPrefix | table_processing/tbl_extraction.py:213 | `short.lower() in s.lower()[:len(short)]` holds exactly when the lower-cased short name is a prefix of the lower-cased file name. |
| TableExtraction.Matching | table_processing/tbl_extraction.py:196 | The matching list holds exactly the file names that start with the short name, ignoring case. |
| TableExtraction.MatchingFirst | table_processing/tbl_extraction.py:213-215 | The list is empty exactly when no file name matches. Otherwise its head is the first matching file name in list order. |
| TableExtraction.Resolve | table_processing/tbl_extraction.py:194-218 | A resolved file is one of the file names and starts, ignoring case, with the text before the first marker. No result means no file name starts with it. |
| TableExtraction.Replace | table_processing/tbl_extraction.py:211-218 | The same for the text before the first `_tbl`. |
| TableExtraction.ReplacePara | table_processing/tbl_extraction.py:194-201 | The same for the text before the first `_para`. |
| TableExtraction.ResolveSpec | table_processing/tbl_extraction.py:194-218 | Resolution takes the text before the first marker. It returns the first file name, in list order, that starts with that text ignoring case, and None exactly when none does. |
| TableExtraction.ReplaceOfSheetName | table_processing/tbl_extraction.py:211-218 | `replace` of a generated sheet name returns the first file whose name starts with the sheet's document head. |
| TableExtraction.ReplaceParaOfParaKey | table_processing/tbl_extraction.py:194-201 | `replace_para` of a generated paragraph key returns the first file whose name starts with the document stem. |
| TableExtraction.FormatScore | table_processing/tbl_extraction.py:299-303 | The ratio is undefined exactly when nothing was compared. Otherwise it lies in [0, 1], is 1 exactly when there was no mismatch and is 0 exactly when there was no match. |
| TableExtraction.FormatScoreComplement | table_processing/tbl_extraction.py:299-303 | The match ratio and the mismatch ratio add up to 1. |
| TableExtraction.TblMatch | table_processing/tbl_extraction.py:204-209 | A table match needs a defined format score (NaN never matches), and, with content at most 1, a format score above 0.25. |
| TableExtraction.ParaMatch | table_processing/tbl_extraction.py:221-226 | `para_match`: the content score strictly above 0.9 (its properties are stated by `ParaMatchProperties`). |
| TableExtraction.TblMatchProperties | table_processing/tbl_extraction.py:204-209 | For scores in [0, 1], a match needs both scores above 0.25. Raising either score keeps a match. A sum of exactly 1.25 is not a match, and an undefined format score never matches. |
| TableExtraction.ParaMatchProperties | table_processing/tbl_extraction.py:221-226 | A paragraph pair matches exactly when its WRatio is above 90; 0.9 itself does not match. |
| TableExtraction.TblMatchNeedsAgreement | table_processing/tbl_extraction.py:204-209 | A table pair with no matching cell is never a match. |
| TableExtraction.LongParagraphs | table_processing/tbl_extraction.py:177-180 | Every kept entry is a paragraph longer than 50 characters, every such paragraph is kept, and there are no more entries than paragraphs. |
| TableExtraction.LongParagraphsSingle | table_processing/tbl_extraction.py:178-180 | A single paragraph is kept exactly when it is longer than 50 characters. |
| TableExtraction.LongParagraphsConcat | table_processing/tbl_extraction.py:177-180 | Filtering two runs of paragraphs one after the other equals filtering them joined, so the kept paragraphs stay in document order, one entry per paragraph. |
| TableExtraction.KeyedKeys | table_processing/tbl_extraction.py:181-186 | Zipping c keys into a dict gives exactly the keys `<doc>_para_1` … `<doc>_para_c`. |
| TableExtraction.KeyedSpec | table_processing/tbl_extraction.py:185-186 | The zip pairs key k with the k-th text, and the dict has exactly c entries. |
| TableExtraction.CollectLongParagraphs | table_processing/tbl_extraction.py:177-180 | The append loop collects the paragraphs longer than 50 characters, in document order. |
| TableExtraction.GetText | table_processing/tbl_extraction.py:173-188 | The append loop and the zip compute the paragraph dictionary. |
| TableExtraction.GetTextDropsLast | table_processing/tbl_extraction.py:177-186 | The dictionary has max(0, n−1) entries for n kept paragraphs. Key k maps to the k-th kept paragraph, and the last kept paragraph has no key. |
| TableExtraction.GetTextSingleParagraph | table_processing/tbl_extraction.py:181 | A document with one long paragraph yields an empty dictionary. |
| TableExtraction.GetTextAll | table_processing/tbl_extraction.py:173-188 | The corrected loop computes a dictionary with one key per kept paragraph. |
| TableExtraction.AllParagraphTextsComplete | table_processing/tbl_extraction.py:177-186 | With keys 1 … n, every kept paragraph is present under its own key. |
| TableExtraction.DocxSheetNames | table_processing/tbl_extraction.py:60-67 | Names one sheet per table, with the counter starting at 0; all names are distinct. |
| TableExtraction.Repeat | table_processing/tbl_extraction.py:95-115 | Repeating a name n times gives n copies of it. |
| TableExtraction.PptxSheetNames | table_processing/tbl_extraction.py:94-115 | The pptx loop computes the slide-indexed names. |
| TableExtraction.PptxNameCounts | table_processing/tbl_extraction.py:94-115 | The name of slide s occurs exactly as often as slide s has tables, so two tables on one slide share a name. |
| TableExtraction.PptxNameAbsent | table_processing/tbl_extraction.py:94-115 | No name refers to a slide index beyond the presentation. |
| TableExtraction.XlsxSheetNames | table_processing/tbl_extraction.py:139-153 | One name per region across all sheets. The counter starts at 1 and is shared across sheets, so all names are distinct. |
| TableExtraction.CompareTablePair | table_processing/tbl_extraction.py:288-327 | The nested loop over both key lists computes the result rows. |
| TableExtraction.CompareTableTo | table_processing/tbl_extraction.py:289-316 | The inner loop computes the rows of one table key A, skipping pairs whose comparison raises. |
| TableExtraction.RowsForWellFormed | table_processing/tbl_extraction.py:288-327 | Every row built for key A carries A, a key of B, and the file names that `replace` resolves. There is one row per B key whose comparison did not raise. |
| TableExtraction.TblRowsWellFormed | table_processing/tbl_extraction.py:286-327 | Every result row is well formed. |
| TableExtraction.TblRowsCount | table_processing/tbl_extraction.py:288-314 | When no comparison raises, there are exactly \|A\| × \|B\| rows. |
| TableExtraction.ParaKeyUnresolvedAsWritten | table_processing/tbl_extraction.py:389-390 | `replace` on a paragraph key finds no file where `replace_para` finds it. |
| TableExtraction.CompareParagraphPair | table_processing/tbl_extraction.py:364-390 | The nested loop computes the paragraph rows, resolving files with `replace_para`. |
| TableExtraction.CompareParagraphTo | table_processing/tbl_extraction.py:366-376 | The inner loop computes the rows of one paragraph key A. |
| TableExtraction.ParaRowsForShape | table_processing/tbl_extraction.py:365-376 | One paragraph gives one row per paragraph of the other document, and row j is the row of the pair with its j-th paragraph. |
| TableExtraction.ParaRowsCount | table_processing/tbl_extraction.py:364-376 | `compare_para` yields one row per pair of paragraphs: exactly \|A\| × \|B\| rows. |
| TableExtraction.ParaRowsWellFormed | table_processing/tbl_extraction.py:364-390 | Every row pairs a key of each document, carries `para_match` of that pair's score and resolves both keys with `replace_para`. |
| TableExtraction.ParaRowResolves | table_processing/tbl_extraction.py:384-390 | A paragraph row resolves both of its files and is a match exactly when the score exceeds 0.9. |
| Sorting.Insert | tests/test_table_tools.py:19-20 | Inserting into a sorted list keeps it sorted, adds exactly one element and keeps the rest. |
| Sorting.Sort | tests/test_table_tools.py:19-20 | `list.sort()` yields a sorted permutation of its input. |
| Sorting.SortedUnique | tests/test_table_tools.py:19-20 | Two sorted permutations of one multiset are equal. |
| Sorting.SortPermutationInvariant | tests/test_table_tools.py:19-20 | The sort result depends only on the multiset of its input. |
| TableTools.WithinThresholdSymmetric | tests/test_table_tools.py:64-69 | `within_threshold` does not depend on the argument order. |
| TableTools.WithinThreshold | tests/test_table_tools.py:64-69 | Two values are within the threshold exactly when each lies strictly less than the threshold away from the other, on either side. |
| TableTools.WithinThresholdExamples | tests/test_table_tools.py:64-69 | (1,1,1) and (1.3,1.4,1) are within the threshold; (1,5,1) and (1.3,1.4,0.01) are not. |
| TableTools.RemoveDuplicateLimits | tests/test_table_tools.py:53-61 | Sorts, then scans, giving the duplicate-free limits. |
| TableTools.Dedup | tests/test_table_tools.py:53-61 | Removing duplicate limits never produces more values than it was given. |
| TableTools.ScanLimits | tests/test_table_tools.py:53-61 | The scan keeps a value when it lies at least the threshold above the last kept value. |
| TableTools.Kept | tests/test_table_tools.py:53-61 | The scan of a sorted list keeps no more values than the list holds. |
| TableTools.KeptFromInput | tests/test_table_tools.py:53-61 | Every kept value comes from the input. |
| TableTools.KeptSortedSpaced | tests/test_table_tools.py:53-61 | The kept values are sorted, and neighbours are at least the threshold apart. |
| TableTools.KeptFirst | tests/test_table_tools.py:58 | The smallest value is always kept. |
| TableTools.KeptCovers | tests/test_table_tools.py:53-61 | Every input value lies less than the threshold above some kept value. |
| TableTools.KeptOfSpaced | tests/test_table_tools.py:53-61 | An already spaced, sorted list is kept unchanged. |
| TableTools.DedupShape | tests/test_table_tools.py:53-61 | The result is sorted and spaced, strictly increasing for a positive threshold, and drawn from the input. |
| TableTools.DedupIdempotent | tests/test_table_tools.py:53-61 | Removing duplicates twice equals removing them once. |
| TableTools.DedupPermutationInvariant | tests/test_table_tools.py:53-61 | The result does not depend on the input order. |
| TableTools.DedupTestExample | tests/test_table_tools.py:53-61 | [0,0.1,0.1,50,60,0,51,52,-50] with threshold 2 gives [-50,0,50,52,60]: 51 is dropped and 52 kept. |
| TableTools.DedupKeepsExactGap | tests/test_table_tools.py:53-61 | A gap exactly equal to the threshold is kept. |
| TableTools.Pool | tests/test_table_tools.py:11-17 | Pooling gives two coordinates per box. |
| TableTools.CollectCoordinates | tests/test_table_tools.py:12-17 | The append loop pools every x1,x2 as columns and every y1,y2 as rows. |
| TableTools.FrameLimits | tests/test_table_tools.py:25-35 | The pop/append/sort steps compute the framed limits, and fail when the column list is too short to pop twice. |
| TableTools.FramedLimits | tests/test_table_tools.py:25-35 | Framing succeeds exactly when two columns can be popped. Both lists are sorted, the columns hold 0 and the width, the rows hold 0 and the height, the column count is unchanged and the rows gain two. |
| TableTools.CalculateRowColumnLimits | tests/test_table_tools.py:8-35 | The whole recipe computes the limits of a page. |
| TableTools.LimitsOf | tests/test_table_tools.py:8-35 | Limits exist only when there is at least one box; there are at most two column limits per box and two row limits per box plus the two edges. |
| TableTools.FramedLimitsShape | tests/test_table_tools.py:25-35 | Succeeds exactly when at least two columns remain. Columns lose their first and last value and gain 0 and the width; rows gain 0 and the height; both are sorted. |
| TableTools.LimitsNoBoxes | tests/test_table_tools.py:25-26 | With no boxes, the recipe's `pop` fails. |
| TableTools.LimitsPermutationInvariant | tests/test_table_tools.py:11-20 | The limits do not depend on the order of the boxes. |
| TableTools.Normalized | tests/test_table_tools.py:11-20 | Ordering a box's corners keeps its coordinates. |
| TableTools.LimitsIgnoreCornerOrder | tests/test_table_tools.py:11-40 | A box with inverted coordinates gives the same limits as its normalised box. |
| TableTools.LimitsTestDedupColumns | tests/test_table_tools.py:11-22 | The test boxes' column candidates deduplicate to [26,50,108.2,133] at threshold 16. |
| TableTools.LimitsTestDedupRows | tests/test_table_tools.py:11-23 | The test boxes' row candidates deduplicate to [40,100,111,122.7] at threshold 8. |
| TableTools.LimitsTestFramed | tests/test_table_tools.py:25-35 | Framing gives columns [0,50,108.2,730] and rows [0,40,100,111,122.7,250]. |
| TableTools.LimitsTestExample | tests/test_table_tools.py:8-40 | The test's expected limits for the 730×250 page and three boxes. |
| TableTools.CleanCellTextTrimmed | tests/test_table_tools.py:43-50 | The cleaned text starts and ends with no whitespace. |
| TableTools.CleanCellText | tests/test_table_tools.py:43-50 | Cleaning never lengthens the text. |
| TableTools.CleanCellTextIsPiece | tests/test_table_tools.py:43-50 | The cleaned text is a contiguous piece of the input. |
| TableTools.CleanCellTextIdempotent | tests/test_table_tools.py:43-50 | Cleaning again changes nothing unless the result itself starts with a marker. |
| TableTools.CleanCellTextTwoMarkers | tests/test_table_tools.py:43-50 | `"\| \| x"` cleans to `"\| x"`, which cleans further to `"x"`: only one marker is removed per call. |
| TableTools.CleanCellTextExamples | tests/test_table_tools.py:46-50 | `"\|   asdf"` and `"asdf        "` clean to `"asdf"`; `"asdf"` is unchanged. |

## Left out

- File walking and document or workbook reading and writing are I/O and are not modelled:
  - docx, pptx and xlsx opening;
  - `to_excel` and `ExcelWriter`;
  - openpyxl sheets, yellow highlighting and saving.

  The model starts from the tables, paragraphs and sheet lists these produce.
- The module logger, `print`, and the `input()` prompts: I/O.
- `datacompy.Compare`, `fuzz.WRatio` and skimage `label`/`regionprops` are foreign libraries. Their results become parameters:
  - the true/false counts;
  - the content score;
  - the number of regions per sheet.

  A comparison that raises is modelled as `None` and skipped.
- `test_tables` metrics (excel_tables_comparison.py:92-101): `table_metrics.py` is not part of this model.
- `table_processing/table_tools.py` is not part of this model. `within_threshold`, `remove_duplicate_limits`, `_calculate_row_column_limits` and `clean_cell_text` are reconstructed from what `tests/test_table_tools.py` states:
  - The test compares `remove_duplicate_limits` only after sorting, so the model sorts first and keeps values at least the threshold above the last kept value.
  - `clean_cell_text` is taken as: trim, drop one leading `|`, trim.
- With no boxes, the recipe's `pop` raises, and the model returns `None`.
- The itertools pair loop over all dictionaries and the "output file already exists" checks (tbl_extraction.py:282, 286, 360, 364) are not modelled. The model compares one pair of key lists.
- The `A`/`B` text columns of the result tables are not modelled. They copy inputs and carry no logic.
- Floating point: scores, percentages and statistics are exact reals. NaN from `0/0` is `None`.
- Lower-casing: `Lower` maps ASCII letters only, whereas `str.lower` is Unicode-aware.
- Strings.Trim: `IsSpace` accepts the six ASCII whitespace characters only, whereas `str.strip` also removes `\x1c`-`\x1f`, `\x85`, `\xa0` and other Unicode spaces; `TrimStart`, `TrimEnd` and `CleanCellText` inherit this.
- Numbers in cells are reals. Pandas' mixed int/float/str typing and the `abs_tol`/`rel_tol` tolerances are left out.
- TableComparison.CountRow: states only the bound. The exact count is carried by `CountTrueNonEmpty`/`SelfComparison` for the cases that need it.
- TableComparison.MaskOf: states only the shape. The per-cell meaning is in `SameShapeMask` and `DifferentShapeMask`.
- TableTools.CleanCellTextIdempotent: idempotence is proved only when the cleaned text does not itself start with `|`. Under the one-marker reading of `clean_cell_text` it fails on `"| | x"` (`CleanCellTextTwoMarkers`); the implementation is not part of this model, and the test's three examples do not decide between this reading and one that drops a whole leading run of markers.
- TableComparison.Mean: states only that the mean lies between min and max. It does not state the sum formula.

## Findings

| source | as written | input that shows it | evidently intended | confidence | as-written member | corrected member |
|---|---|---|---|---|---|---|
| table_processing/tbl_extraction.py:181 | keys are made for `range(1, len(fullText))`, so `zip` pairs only n−1 keys with the n kept paragraphs | a document with one paragraph longer than 50 characters yields an empty dictionary | key every kept paragraph, `range(1, len(fullText) + 1)` | not executed | TableExtraction.GetTextDropsLast | TableExtraction.AllParagraphTextsComplete |
| table_processing/tbl_extraction.py:389-390 | paragraph rows resolve their files with `replace`, which splits at `_tbl` | key `report_para_1` with file list `["report.docx"]`: the whole key is not a prefix of any file, so `file A` is None | `replace_para`, which splits at `_para` and finds `report.docx` | not executed | TableExtraction.ParaKeyUnresolvedAsWritten | TableExtraction.ParaRowResolves |
