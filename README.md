# Luban spreadsheet core, modelled in Dafny

This project models two self-contained algorithms of the luban configuration toolchain and proves properties of them.

**LubanAssistant's `ExcelUtil`** covers the header tree, row extraction and fill-back:

- It reads the meta row of a row-oriented table sheet.
- It builds the tree of `Title` nodes from the header rows below the meta row. The header depth is probed from the merge area of cell (2,1). A non-blank cell of row 2 opens a child of the root. A non-blank cell of a lower row opens one child under each node of the row above whose column range contains it, and none if no such node does. Each child spans as many columns as the cell's merge area has cells. That is the merge's width only when the merge is one row high. The builder recurses row by row, and the root's `ToIndex` is finally reset to the largest `ToIndex` of its children.
- It copies a value array into one list of `Cell`s per row.
- It writes records back below the header, in four steps:
  1. clear the old data rows;
  2. sort the records by an int or long key;
  3. expand each record into its block of rows at a running offset;
  4. pad the rows into a dense buffer as wide as the header, and write the buffer directly below the header.

**Excel2TextDiff's `Excel2TextWriter`** turns a workbook into diff-friendly text:

- Each result set emits a `===[name]===` header line.
- Each row emits the comma-joined fields up to its last non-empty one.
- A row whose fields are all empty emits nothing.

The model is organised as follows:

- The worksheet as the header parser sees it is a snapshot (`Sheets.Sheet`). It gives, per 1-based cell, the cell's text, whether the cell is merged, and its merge area's count.
- The cells that `FillRecords` clears and writes are a 2-D array (`array2<Value>`), shifted to 0-based indices.
- The title tree is a value datatype, built by imperative methods that mirror the source's loops. Each method is proved equal to a specification function (`Grow`, `GrowAll`, `RowChildren`, `Titles`). Declarative predicates (`Shaped`, `DepthAtMost`, `SpansColumns`) state what the tree is without reference to how it is built.
- The record sort is an in-place insertion sort on an `array`, proved sorted and a permutation.
- The text writer's reader is a sequence of named row-sets, each a sequence of rows of optional strings.

The code does not follow its own comment in one place, and the model follows the code. The comment at `Excel2TextWriter.cs:35` says the first (meta) row is skipped, but `rowIndex` is never tested. So every non-blank row is emitted, the first included (`Excel2Text.ConfigExample`).

Four routines whose source is not part of this model are function-typed parameters:

| routine | parameter | its failure |
|---|---|---|
| `SheetLoadUtil.TryParseMeta` | `MetaParser` | `None` |
| `SheetLoadUtil.ParseNameAndMetaAttrs` | `NameParser` | `None` stands for the exception |
| `FillSheetVisitor` with `DType.Apply` | `rowsOf` | — |
| the record's index-field value | `key` | — |

Exceptions are modelled as `Err` values of `Sheets.Error`.

## Model

| member | source | states |
|---|---|---|
| TitleTree.RowChildren | src/LubanAssistant/ExcelUtil.cs:106-134 | The children one header row opens over a column range, left to right. A failure is a malformed cell of that row and range. |
| TitleTree.Grow | src/LubanAssistant/ExcelUtil.cs:103-142 | Growing a node changes only its child list. A failure comes from a header row at or below the node's own row. |
| TitleTree.GrowAll | src/LubanAssistant/ExcelUtil.cs:137-140 | Growing the children one after another yields one grown child per child. A failure comes from a row at or below the one being parsed. |
| TitleTree.MaxToIndex | src/LubanAssistant/ExcelUtil.cs:98 | The maximum of the children's ToIndex: at least every child's ToIndex, and equal to one of them. |
| TitleTree.ParseSubTitle | src/LubanAssistant/ExcelUtil.cs:103-142 | The column loop and the recursion over the children produce exactly `Grow`'s tree or its first error. |
| TitleTree.AddRowSubTitles | src/LubanAssistant/ExcelUtil.cs:106-134 | The column loop over one header row yields exactly `RowChildren` for the node's column range, or the first malformed cell's error. |
| TitleTree.HeaderDepth | src/LubanAssistant/ExcelUtil.cs:83-88 | The number of header rows below the meta row: one, or the merge-area count of cell (2,1) when that cell is merged. |
| TitleTree.ParseTitles | src/LubanAssistant/ExcelUtil.cs:81-101 | The result is `Titles`. The root is `__root__`, FromIndex 0, Root, empty tags. It has at least one child, and its ToIndex is the maximum of its children's ToIndex. |
| TitleTree.RowChildrenErrPersists | src/LubanAssistant/ExcelUtil.cs:106-115 | Once a column fails to parse, every wider range fails with the same error. |
| TitleTree.GrowFailsInRow | src/LubanAssistant/ExcelUtil.cs:115 | The first malformed header cell, left to right, in the node's own column range makes the whole node fail with that cell's error. |
| TitleTree.GrowFailsBelow | src/LubanAssistant/ExcelUtil.cs:135-141 | A child that fails to grow makes its parent fail with the same error. |
| TitleTree.GrowAllErrPersists | src/LubanAssistant/ExcelUtil.cs:137-140 | A failing prefix of the children makes the whole loop fail with that error. |
| TitleTree.RowChildrenShape | src/LubanAssistant/ExcelUtil.cs:106-133 | Each non-blank column opens exactly one child with FromIndex = that column, labelled by its cell. Blank columns open none, and children come in strictly increasing FromIndex order. |
| TitleTree.RowChildrenAllBlank | src/LubanAssistant/ExcelUtil.cs:110-113 | Null or whitespace-only cells add no child: an all-blank range opens none. |
| TitleTree.RowChildrenErr | src/LubanAssistant/ExcelUtil.cs:106-115 | A row fails if and only if one of its non-blank cells has malformed name/tag text. |
| TitleTree.GrowShaped | src/LubanAssistant/ExcelUtil.cs:103-142 | Growing a childless node gives it exactly the `Shaped` header subtree: per row, one labelled child per non-blank column, recursing down to maxRowIndex and no further. |
| TitleTree.GrowAllShaped | src/LubanAssistant/ExcelUtil.cs:137-140 | Growing a list of childless nodes keeps each node's label and gives each its `Shaped` subtree. |
| TitleTree.ShapedDepth | src/LubanAssistant/ExcelUtil.cs:135-141 | A shaped subtree rooted at a row is no deeper than the number of header rows left below it. |
| TitleTree.ShapedSpans | src/LubanAssistant/ExcelUtil.cs:125-132 | A child's ToIndex is i + mergeCount - 1 when merged, else i. With merge counts of at least one, every node satisfies FromIndex <= ToIndex. |
| TitleTree.ShapedSiblingsDisjoint | src/LubanAssistant/ExcelUtil.cs:106-133 | If, for every non-blank merged cell of the row (a merge's anchor), the count - 1 cells to its right are blank (`MergedCellsBlank`), siblings never overlap: each child ends before the next starts. That holds when the row's merges are one row high, since those cells are then the ones the merge covers. |
| TitleTree.TallMergeOverlaps | src/LubanAssistant/ExcelUtil.cs:125-132 | With A2:A3 merged holding "id" and B2:C2 merged holding "pos", every merged cell carrying count 2, row 2 opens "id" over columns 0-1 and "pos" over 1-2. The siblings overlap although the covered cells A3 and C2 are empty, because the merge-area count of a two-row merge is its cell count; `MergedCellsBlank` fails on row 2. |
| TitleTree.WideMergeDisjoint | src/LubanAssistant/ExcelUtil.cs:106-133 | With B2:C2 merged holding "pos" and D2 holding "z", `MergedCellsBlank` holds on row 2 although the covered cell C2 is marked merged, and row 2 opens the disjoint "pos" over columns 1-2 and "z" over 3-3. |
| TitleTree.TitlesRoot | src/LubanAssistant/ExcelUtil.cs:89-100 | The returned root is `__root__` with FromIndex 0, Root set and no tags. It has at least one child, and its ToIndex is the maximum of its children's ToIndex. |
| TitleTree.TitlesShape | src/LubanAssistant/ExcelUtil.cs:81-101 | The children of the returned root are exactly the shaped header from row 2 to the probed depth, over all used columns. |
| TitleTree.TitlesDepth | src/LubanAssistant/ExcelUtil.cs:83-101 | When cell (2,1) is unmerged, or merged with a merge count of at least 1, the header tree is no deeper than the number of header rows probed below the meta row. |
| TitleTree.TitlesNoHeader | src/LubanAssistant/ExcelUtil.cs:97-98 | ParseTitles fails on Max of an empty list if and only if every cell of row 2 is blank. |
| RawSheets.ParseMetaAttrs | src/LubanAssistant/ExcelUtil.cs:69-79 | The meta parser is handed exactly the texts of row 1, columns 1 to the used column count. |
| RawSheets.ExtractCells | src/LubanAssistant/ExcelUtil.cs:38-48 | One inner list per array row, each with ToIndex - FromIndex + 1 cells; the cell for column i of row k is Cell(k, i, the value unchanged). It fails with IndexOutOfRange if and only if there is a row and ToIndex lies past the array's width. |
| RawSheets.ParseRawSheet | src/LubanAssistant/ExcelUtil.cs:23-50 | An invalid meta row fails with MetaInvalid, and a column-oriented table with OnlyRowTables, before any title parsing. A header error is passed on. Otherwise the result carries the tree, the meta's title-row count and table name, and the extracted cells. |
| RawSheets.ParseRawSheetTitleOnly | src/LubanAssistant/ExcelUtil.cs:52-67 | The same checks in the same order. On success: the tree, the title-row count, the table name and an empty Cells list. |
| RecordFill.ClearRange | src/LubanAssistant/ExcelUtil.cs:146-151 | Every cell of the old data rows and used columns becomes null. Every other cell is unchanged. |
| RecordFill.SortByKey | src/LubanAssistant/ExcelUtil.cs:161-171 | The records end in ascending key order and are a permutation of the old ones. Stability is not promised. |
| RecordFill.SortRecords | src/LubanAssistant/ExcelUtil.cs:156-172 | Records are reordered only when the key field is int or long, and then end ascending; otherwise they are untouched. They are always a permutation of the input. It fails with KeyNotSupported if and only if the comparer would throw: two or more records whose keys are not all DInt or all DLong. |
| RecordFill.ExpandRecords | src/LubanAssistant/ExcelUtil.cs:174-180 | The rows are the records' row blocks concatenated in record order, each at the running offset totalRowCount. |
| RecordFill.BuildBuffer | src/LubanAssistant/ExcelUtil.cs:182-190 | A fresh Count × width buffer with buf[i,j] = rows[i][j] where the row has a j-th value, and null elsewhere. It fails with IndexOutOfRange if and only if some row is wider than the buffer. |
| RecordFill.WriteRange | src/LubanAssistant/ExcelUtil.cs:192-193 | The buffer lands with its top-left cell at (titleRowNum + 2, 1). Every other cell is unchanged. |
| RecordFill.FillRecords | src/LubanAssistant/ExcelUtil.cs:144-194 | Clears the old data rows first; sorts as SortRecords does, the records always staying a permutation. It fails with KeyNotSupported exactly when the comparer would throw, with IndexOutOfRange exactly when a record row is wider than the header, and with OutOfSheet exactly when a non-empty buffer does not fit; it fails with nothing else, so it succeeds exactly when none of these holds. On success every cell equals `Refilled` (cleared, then the padded buffer from row titleRowNum + 2); on failure the grid is only cleared. |
| RecordFill.ExpandBlocks | src/LubanAssistant/ExcelUtil.cs:174-180 | Row j of record k's block is row Offset(k) + j of the concatenated rows. |
| RecordFill.ExpandLength | src/LubanAssistant/ExcelUtil.cs:174-180 | The running offset grows by exactly each record's block size. |
| RecordFill.SortedPermutationUnique | src/LubanAssistant/ExcelUtil.cs:161-171 | With distinct keys, two sorted permutations of the same records are equal, so the sorted order is determined. |
| RecordFill.RefillIdempotent | src/LubanAssistant/ExcelUtil.cs:146-193 | If every cell outside the used range is empty, filling again with the same rows reproduces the first fill's value in every cell. |
| Excel2Text.LastNonEmptyIndex | src/Excel2TextDiff/Excel2TextWriter.cs:42 | The index of the last non-empty field: that field is non-empty and every later one is empty. The result is -1 when all fields are empty. |
| Excel2Text.LoadRows | src/Excel2TextDiff/Excel2TextWriter.cs:30-54 | The lines appended are exactly `RowsText` of the rows, after the lines already there. |
| Excel2Text.ReadFields | src/Excel2TextDiff/Excel2TextWriter.cs:36-41 | One field per cell of the row, in column order: the cell's text, or the empty string for a null cell. |
| Excel2Text.TransformToText | src/Excel2TextDiff/Excel2TextWriter.cs:14-28 | The do/while loop over result sets produces exactly `TextLines`: block after block, in reader order. |
| Excel2Text.TrimKeepsInterior | src/Excel2TextDiff/Excel2TextWriter.cs:42-45 | Only trailing empty strings are dropped. The kept prefix is empty or ends in a non-empty field, and it is empty if and only if every field is empty. |
| Excel2Text.JoinEndsWithLast | src/Excel2TextDiff/Excel2TextWriter.cs:46 | The comma join ends with its last field. |
| Excel2Text.LineEndsWithComma | src/Excel2TextDiff/Excel2TextWriter.cs:42-46 | An emitted line ends with ',' only if its last kept field, which is non-empty, ends with ','. |
| Excel2Text.RowLineIffNonEmpty | src/Excel2TextDiff/Excel2TextWriter.cs:39-52 | A row emits a line if and only if one of its cells is non-null with non-empty text. |
| Excel2Text.RowsTextMatchesRows | src/Excel2TextDiff/Excel2TextWriter.cs:32-53 | One data line per row with a non-empty field, in increasing source row order, each that row's line. No row is skipped by position, so the number of data lines equals the number of non-blank rows. |
| Excel2Text.BlockAt | src/Excel2TextDiff/Excel2TextWriter.cs:21-25 | Result set k contributes exactly its header line `===[name]===` followed by its data lines. The block starts where the earlier sets' blocks end. |
| Excel2Text.TextLinesLength | src/Excel2TextDiff/Excel2TextWriter.cs:21-25 | The output has one header line per result set plus one line for every row, in every set, that has a non-empty field. |
| Excel2Text.RowsTextCount | src/Excel2TextDiff/Excel2TextWriter.cs:30-54 | A result set contributes exactly as many data lines as it has rows with a non-empty field. |
| Excel2Text.TrailingEmptiesDropped | src/Excel2TextDiff/Excel2TextWriter.cs:42-46 | Fields a, "", b, "", null give "a,,b": interior empties stay and trailing ones go. |
| Excel2Text.WhitespaceIsNotEmpty | src/Excel2TextDiff/Excel2TextWriter.cs:42 | A whitespace-only cell counts as non-empty, so its row is emitted. An all-empty row is not. |
| Excel2Text.JoinNotInvertible | src/Excel2TextDiff/Excel2TextWriter.cs:46 | The join does no escaping: one field "a,b" and two fields a, b give the same line. |
| Excel2Text.ConfigExample | src/Excel2TextDiff/Excel2TextWriter.cs:21-53 | A set "Config" with rows [meta], [1, A, ""], ["", ""] gives `===[Config]===`, `meta`, `1,A`. The first row is emitted, the blank row dropped and the trailing empty trimmed. |

## Left out

- `SaveRecordsAsync` (ExcelUtil.cs:205-244) is not modelled. It is parallel tasks, JSON serialisation and file I/O.
- `LoadRecordsInRange` (ExcelUtil.cs:196-203) is not modelled. It only delegates to `ExcelDataSource`, which is not part of this model.
- `Title.Init` (ExcelUtil.cs:99) is not modelled. Its source is not part of this model, so the tree is shown as it stands before `Init`. `ParseRawSheet` therefore extracts over the root's `[FromIndex, ToIndex]` as `ParseTitles` leaves it, the maximum of row 2's `ToIndex` values, and returns that tree. If `Init` recomputed ranges bottom-up, the source's extraction width could differ from the model's, for instance when an unmerged row-2 cell stands above a wider row-3 merge.
- The COM layer is replaced by the `Sheet` snapshot and a 2-D array of values. This covers `Worksheet`, `Range`, `UsedRange`, `ClearContents` and bulk `Value` assignment.
  - The value array of `ParseRawSheet` is taken with COM's usual lower bound of 1, shifted to 0-based indices.
  - Its cell rows are numbered as `r - 1` in the source, which becomes the 0-based row index.
- How `ToString()` formats numbers and dates is not modelled (culture, floating point). Cell texts are given strings.
- File handling in `TransformToTextAndSave` is not modelled: `FileStream`, the reader factory, `File.WriteAllLines` and UTF-8. The model produces the line sequence only.
- Title objects are modelled as values, so the tree's nodes are not shared. The source builds them in place and never shares a node, so nothing observable is lost.
- TitleTree.ShapedSiblingsDisjoint: the header loop has no step that skips columns a wider sibling already covers; siblings stay apart when, right of each non-blank merged cell (the anchor), the count - 1 cells are blank. For merges one row high those are the covered cells, which Excel reports empty. For merges taller than one row, the source uses the cell count (rows × columns) as a column width and gives overlapping spans. Example (`TitleTree.TallMergeOverlaps`): A2:A3 "id" and B2:C2 "pos" give "id" = [0,1] and "pos" = [1,2].
- `MergeArea.Count` is kept as one abstract number per cell. The model does not split it into rows × columns, so the column span of a cell merged over several rows is whatever that count is.
- RecordFill.FillRecords: when no rows are produced (no records, or records whose blocks are all empty), the source assigns an empty array to the range whose corners are cells (titleRowNum + 2, 1) and (titleRowNum + 1, width). That range covers rows titleRowNum + 1 and titleRowNum + 2, so it touches the last header row. The model writes nothing in that case, so what that write does to the last header row is not modelled.
- RecordFill.FillRecords: a range that does not fit the worksheet is modelled as an OutOfSheet error. Excel's own limit on sheet size is not modelled.
- RecordFill.SortByKey: `List.Sort` is an unstable introsort, and the model's insertion sort stands in for it. Both give ascending order and a permutation. Where keys are equal, the order of the records is left unspecified.
- RecordFill.SortRecords: the comparer exception is modelled as failing exactly when there are at least two records and their keys are not all DInt or all DLong. The reason is that a correct comparison sort must compare pairs that connect all its elements, so with mixed kinds some compared pair throws. The exact set of pairs `List.Sort` compares is not modelled.
- RecordFill.SortRecords: the comparer throws NotSupportedException when its first key is neither DInt nor DLong, and a NullReferenceException when a DInt or DLong first key meets a second key of any other kind. `List.Sort` rethrows either one wrapped in an InvalidOperationException, which leaves FillRecords. The model reports all of these as KeyNotSupported.
- RecordFill.SortRecords: when the comparer throws, `List.Sort` may already have moved records. The contract promises only that the records stay a permutation; which partial order the source leaves is not modelled.
- Excel2Text.TransformToText: the source's reader always has a current result set, so the model requires at least one.
