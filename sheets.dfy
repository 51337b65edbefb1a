/**
 * The worksheet as the header parser sees it: a point-in-time snapshot with a text
 * value and a merge area for every cell. Coordinates are Excel's, 1-based
 * (row 1 is the meta row, column 1 is column A).
 */
module Sheets {
  import opened Wrappers

  /** The failures of the modelled operations, one per exception the source can raise. */
  datatype Error =
    | MetaInvalid                       // the meta row does not parse
    | OnlyRowTables                     // the meta row declares a column-oriented table
    | TitleFormat(row: int, col: int)   // a header cell's name/tag text is malformed
    | NoHeaderColumns                   // Max over an empty SubTitleList
    | IndexOutOfRange                   // a value-array or buffer index past its bound
    | KeyNotSupported                   // the sort comparer met a key it cannot compare
    | OutOfSheet                        // the fill range does not fit in the worksheet

  /** A raw cell value, copied verbatim between the sheet and the records. */
  datatype Value = Null | Text(s: string) | Number(n: real) | Boolean(b: bool)

  datatype Sheet = Sheet(
    usedColumns: nat,                  // UsedRange.Columns.Count
    text: (int, int) -> Option<string>, // Value?.ToString() of cell (row, col)
    mergeCells: (int, int) -> bool,     // Range.MergeCells of cell (row, col)
    mergeAreaCount: (int, int) -> int)  // Range.MergeArea.Count of cell (row, col)

  /** Char.IsWhiteSpace: the Unicode White_Space characters. */
  predicate IsWhiteSpace(c: char) {
    var n := c as int;
    n == 0x20 || (0x09 <= n <= 0x0D) || n == 0x85 || n == 0xA0 || n == 0x1680
    || (0x2000 <= n <= 0x200A) || n == 0x2028 || n == 0x2029 || n == 0x202F
    || n == 0x205F || n == 0x3000
  }

  /** string.IsNullOrWhiteSpace */
  predicate IsNullOrWhiteSpace(s: Option<string>) {
    s.None? || forall k :: 0 <= k < |s.value| ==> IsWhiteSpace(s.value[k])
  }

  /**
   * The count - 1 cells to the right of every non-blank merged cell of `row` are
   * blank. Excel marks every cell of a merge as merged but gives a value only to its
   * top-left anchor, so the non-blank merged cells are the anchors. For merges one
   * row high the count is the merge's width and these are the cells the merge
   * covers, which Excel reports empty. For a merge taller than one row the count is
   * rows times columns, so these cells can lie outside the merge.
   */
  ghost predicate MergedCellsBlank(sheet: Sheet, row: int) {
    forall c, d :: sheet.mergeCells(row, c) && !IsNullOrWhiteSpace(sheet.text(row, c))
      && c < d < c + sheet.mergeAreaCount(row, c)
      ==> IsNullOrWhiteSpace(sheet.text(row, d))
  }}
