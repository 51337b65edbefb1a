/**
 * Loading a row-oriented table sheet (ExcelUtil.ParseMetaAttrs, ParseRawSheet and
 * ParseRawSheetTitleOnly): check the meta row, build the header tree, and copy the
 * values of the rows to save into one list of cells per row.
 */
module RawSheets {
  import opened Wrappers
  import opened Sheets
  import opened TitleTree

  /** What the meta row declares: orientation, number of title rows, table name. */
  datatype Meta = Meta(orientRow: bool, titleRows: int, tableName: string)

  /**
   * SheetLoadUtil.TryParseMeta, whose source is not part of this model: None when it
   * returns false.
   */
  type MetaParser = seq<Option<string>> -> Option<Meta>

  /** A data cell: 0-based data row, 0-based column, the value as read. */
  datatype Cell = Cell(row: int, col: int, rawValue: Value)

  datatype RawSheet = RawSheet(title: Title, titleRowCount: int, tableName: string, cells: seq<seq<Cell>>)

  /** The meta row's texts, columns 1 .. UsedRange.Columns.Count. */
  function MetaRow(sheet: Sheet): seq<Option<string>> {
    seq(sheet.usedColumns, i => sheet.text(1, i + 1))
  }

  /** The checks both loaders start with, then the header tree. */
  function SheetHeader(sheet: Sheet, parse: NameParser, tryParseMeta: MetaParser): Result<(Meta, Title), Error> {
    match tryParseMeta(MetaRow(sheet))
    case None => Err(MetaInvalid)
    case Some(m) =>
      if !m.orientRow then Err(OnlyRowTables)
      else
        match Titles(sheet, parse)
        case Err(e) => Err(e)
        case Ok(t) => Ok((m, t))
  }

  /** The number of columns in [from, to]. */
  function Width(from: int, to: int): nat {
    if from <= to then to - from + 1 else 0
  }

  /**
   * `cells` copies `values` over the columns [from, to]: one list per array row, and
   * in row k the cell of column from + j holds values[k, from + j] unchanged.
   * The array is Excel's 1-based value array shifted to 0-based indices.
   */
  ghost predicate Extracted(values: array2<Value>, from: int, to: int, cells: seq<seq<Cell>>)
    reads values
  {
    && |cells| == values.Length0
    && forall k :: 0 <= k < values.Length0 ==>
         && |cells[k]| == Width(from, to)
         && forall j :: 0 <= j < |cells[k]| ==>
              0 <= from + j < values.Length1 && cells[k][j] == Cell(k, from + j, values[k, from + j])
  }

  /** ExcelUtil.ParseMetaAttrs: collect the meta row's texts and hand them to TryParseMeta. */
  method ParseMetaAttrs(sheet: Sheet, tryParseMeta: MetaParser) returns (r: Option<Meta>)
    ensures r == tryParseMeta(MetaRow(sheet))
  {
    var cells: seq<Option<string>> := [];
    var i := 1;
    var n := sheet.usedColumns;
    while i <= n
      invariant 1 <= i <= n + 1
      invariant |cells| == i - 1
      invariant forall k :: 0 <= k < i - 1 ==> cells[k] == sheet.text(1, k + 1)
    {
      cells := cells + [sheet.text(1, i)];
      i := i + 1;
    }
    assert cells == MetaRow(sheet);
    r := tryParseMeta(cells);
  }

  /**
   * The nested copy loop of ParseRawSheet: it throws IndexOutOfRangeException exactly
   * when there is a row and a column of [from, to] lies past the array's width.
   */
  method ExtractCells(values: array2<Value>, from: int, to: int) returns (r: Result<seq<seq<Cell>>, Error>)
    requires 0 <= from
    ensures r.Err? <==> values.Length0 > 0 && from <= to && to >= values.Length1
    ensures r.Err? ==> r.error == IndexOutOfRange
    ensures r.Ok? ==> Extracted(values, from, to, r.value)
  {
    var cells: seq<seq<Cell>> := [];
    var row := 0;
    while row < values.Length0
      invariant 0 <= row <= values.Length0
      invariant row > 0 ==> from > to || to < values.Length1
      invariant |cells| == row
      invariant forall k :: 0 <= k < row ==>
        && |cells[k]| == Width(from, to)
        && forall j :: 0 <= j < |cells[k]| ==>
             0 <= from + j < values.Length1 && cells[k][j] == Cell(k, from + j, values[k, from + j])
    {
      var rowCell: seq<Cell> := [];
      var i := from;
      while i <= to
        invariant from <= i && (i <= to + 1 || i == from)
        invariant i > from ==> i - 1 < values.Length1
        invariant |rowCell| == i - from
        invariant forall j :: 0 <= j < |rowCell| ==>
          0 <= from + j < values.Length1 && rowCell[j] == Cell(row, from + j, values[row, from + j])
      {
        if i >= values.Length1 {
          return Err(IndexOutOfRange);
        }
        rowCell := rowCell + [Cell(row, i, values[row, i])];
        i := i + 1;
      }
      cells := cells + [rowCell];
      row := row + 1;
    }
    r := Ok(cells);
  }

  /** ExcelUtil.ParseRawSheet. */
  method ParseRawSheet(sheet: Sheet, parse: NameParser, tryParseMeta: MetaParser, values: array2<Value>)
    returns (r: Result<RawSheet, Error>)
    ensures tryParseMeta(MetaRow(sheet)).None? ==> r == Err(MetaInvalid)
    ensures tryParseMeta(MetaRow(sheet)).Some? && !tryParseMeta(MetaRow(sheet)).value.orientRow ==>
      r == Err(OnlyRowTables)
    ensures SheetHeader(sheet, parse, tryParseMeta).Err? ==> r == Err(SheetHeader(sheet, parse, tryParseMeta).error)
    ensures SheetHeader(sheet, parse, tryParseMeta).Ok? ==>
      var (m, t) := SheetHeader(sheet, parse, tryParseMeta).value;
      && (r.Err? <==> values.Length0 > 0 && 0 <= t.toIndex && t.toIndex >= values.Length1)
      && (r.Err? ==> r.error == IndexOutOfRange)
      && (r.Ok? ==> && r.value.title == t && r.value.titleRowCount == m.titleRows
                    && r.value.tableName == m.tableName
                    && Extracted(values, t.fromIndex, t.toIndex, r.value.cells))
  {
    var meta := ParseMetaAttrs(sheet, tryParseMeta);
    if meta.None? {
      return Err(MetaInvalid);
    }
    if !meta.value.orientRow {
      return Err(OnlyRowTables);
    }
    var title :- ParseTitles(sheet, parse);
    var cells :- ExtractCells(values, title.fromIndex, title.toIndex);
    r := Ok(RawSheet(title, meta.value.titleRows, meta.value.tableName, cells));
  }

  /** ExcelUtil.ParseRawSheetTitleOnly: the same checks and tree, and no cells. */
  method ParseRawSheetTitleOnly(sheet: Sheet, parse: NameParser, tryParseMeta: MetaParser)
    returns (r: Result<RawSheet, Error>)
    ensures tryParseMeta(MetaRow(sheet)).None? ==> r == Err(MetaInvalid)
    ensures tryParseMeta(MetaRow(sheet)).Some? && !tryParseMeta(MetaRow(sheet)).value.orientRow ==>
      r == Err(OnlyRowTables)
    ensures SheetHeader(sheet, parse, tryParseMeta).Err? ==> r == Err(SheetHeader(sheet, parse, tryParseMeta).error)
    ensures SheetHeader(sheet, parse, tryParseMeta).Ok? ==>
      var (m, t) := SheetHeader(sheet, parse, tryParseMeta).value;
      r == Ok(RawSheet(t, m.titleRows, m.tableName, []))
  {
    var meta := ParseMetaAttrs(sheet, tryParseMeta);
    if meta.None? {
      return Err(MetaInvalid);
    }
    if !meta.value.orientRow {
      return Err(OnlyRowTables);
    }
    var title :- ParseTitles(sheet, parse);
    var cells: seq<seq<Cell>> := [];
    r := Ok(RawSheet(title, meta.value.titleRows, meta.value.tableName, cells));
  }
}
