/**
 * Turning a workbook into diff-friendly text (Excel2TextWriter.TransformToTextAndSave
 * and LoadRows). The reader is a sequence of named row-sets; a cell is null or the
 * text its ToString() gives. Each row-set emits a `===[name]===` header line, then one
 * line per row that has a non-empty cell: its fields up to the last non-empty one,
 * joined with commas.
 */
module Excel2Text {
  import opened Wrappers

  /** One result set of the reader: its name (null for some sources) and its rows. */
  datatype RowSet = RowSet(name: Option<string>, rows: seq<seq<Option<string>>>)

  /** A cell's text: "" for null, its ToString() otherwise. */
  function CellText(cell: Option<string>): string {
    match cell
    case None => ""
    case Some(s) => s
  }

  /** The row as the strings LoadRows collects, one per field. */
  function RowTexts(row: seq<Option<string>>): seq<string> {
    seq(|row|, i requires 0 <= i < |row| => CellText(row[i]))
  }

  /** List.FindLastIndex(s => !string.IsNullOrEmpty(s)): -1 when every field is empty. */
  function LastNonEmptyIndex(fields: seq<string>): (r: int)
    ensures -1 <= r < |fields|
    ensures r >= 0 ==> fields[r] != ""
    ensures forall k :: r < k < |fields| ==> fields[k] == ""
  {
    if |fields| == 0 then -1
    else if fields[|fields| - 1] != "" then |fields| - 1
    else LastNonEmptyIndex(fields[..|fields| - 1])
  }

  /** string.Join(',', fields). */
  function JoinComma(fields: seq<string>): string {
    if |fields| == 0 then ""
    else if |fields| == 1 then fields[0]
    else fields[0] + "," + JoinComma(fields[1..])
  }

  /** The line a row emits, or None for a row whose fields are all empty. */
  function RowLine(row: seq<Option<string>>): Option<string> {
    var fields := RowTexts(row);
    var last := LastNonEmptyIndex(fields);
    if last >= 0 then Some(JoinComma(fields[..last + 1])) else None
  }

  /** The zero or one line a row contributes. */
  function RowLines(row: seq<Option<string>>): seq<string> {
    match RowLine(row)
    case None => []
    case Some(line) => [line]
  }

  /** The lines LoadRows appends for `rows`, in order. */
  function RowsText(rows: seq<seq<Option<string>>>): seq<string> {
    if rows == [] then [] else RowsText(rows[..|rows| - 1]) + RowLines(rows[|rows| - 1])
  }

  /** The header line of a result set; a null name prints as empty. */
  function Header(name: Option<string>): string {
    "===[" + CellText(name) + "]==="
  }

  /** One result set's block: its header line, then its data lines. */
  function Block(rs: RowSet): seq<string> {
    [Header(rs.name)] + RowsText(rs.rows)
  }

  /** All the lines TransformToTextAndSave writes, block after block. */
  function TextLines(sets: seq<RowSet>): seq<string> {
    if sets == [] then [] else TextLines(sets[..|sets| - 1]) + Block(sets[|sets| - 1])
  }

  /** The line index at which result set k's header stands. */
  function HeaderIndex(sets: seq<RowSet>, k: nat): nat
    requires k <= |sets|
  {
    |TextLines(sets[..k])|
  }

  // ---------------------------------------------------------------------------
  // Methods: the source's loops.

  /**
   * Excel2TextWriter.LoadRows: append one line per row that has a non-empty field.
   * `rowIndex` counts the rows read; nothing ever tests it, so no row is skipped.
   */
  method LoadRows(rows: seq<seq<Option<string>>>, lines: seq<string>) returns (result: seq<string>)
    ensures result == lines + RowsText(rows)
  {
    result := lines;
    var rowIndex := 0;
    var k := 0;
    while k < |rows|
      invariant 0 <= k <= |rows| && rowIndex == k
      invariant result == lines + RowsText(rows[..k])
    {
      rowIndex := rowIndex + 1;
      var row := ReadFields(rows[k]);
      var lastNotEmptyIndex := LastNonEmptyIndex(row);
      LoadRowStep(rows, k, lines, row);
      if lastNotEmptyIndex >= 0 {
        row := row[..lastNotEmptyIndex + 1];
        result := result + [JoinComma(row)];
      } else {
        row := [];
      }
      k := k + 1;
    }
    assert rows[..k] == rows;
  }

  /** The field loop of LoadRows: "" for a null cell, the cell's text otherwise. */
  method ReadFields(cells: seq<Option<string>>) returns (row: seq<string>)
    ensures |row| == |cells|
    ensures forall j :: 0 <= j < |cells| ==> row[j] == CellText(cells[j])
  {
    row := [];
    for i := 0 to |cells|
      invariant |row| == i
      invariant forall j :: 0 <= j < i ==> row[j] == CellText(cells[j])
    {
      var cell := cells[i];
      row := row + [if cell.Some? then cell.value else ""];
    }
  }

  /**
   * The do/while loop of TransformToTextAndSave: for every result set, starting
   * with the one the reader is positioned on, a header line and then its rows.
   */
  method TransformToText(sets: seq<RowSet>) returns (lines: seq<string>)
    requires |sets| > 0
    ensures lines == TextLines(sets)
  {
    lines := [];
    var k := 0;
    var more := true;
    while more
      invariant 0 <= k <= |sets|
      invariant more <==> k < |sets|
      invariant lines == TextLines(sets[..k])
      decreases |sets| - k
    {
      lines := lines + [Header(sets[k].name)];
      lines := LoadRows(sets[k].rows, lines);
      TextLinesSnoc(sets, k);
      k := k + 1;
      more := k < |sets|;
    }
    assert sets[..k] == sets;
  }

  // ---------------------------------------------------------------------------
  // Lemmas.

  /** The lines after one more row: those before it, then that row's line if any. */
  lemma RowsTextSnoc(rows: seq<seq<Option<string>>>, k: nat, before: seq<string>)
    requires k < |rows|
    ensures before + RowsText(rows[..k + 1]) == (before + RowsText(rows[..k])) + RowLines(rows[k])
  {
    assert rows[..k + 1][..k] == rows[..k];
  }

  /**
   * One turn of LoadRows' loop: with the fields LoadRows collects for row k, the
   * truncated join is appended exactly when RowsText has a line for that row.
   */
  lemma LoadRowStep(rows: seq<seq<Option<string>>>, k: nat, before: seq<string>, row: seq<string>)
    requires k < |rows|
    requires |row| == |rows[k]| && forall j :: 0 <= j < |row| ==> row[j] == CellText(rows[k][j])
    ensures LastNonEmptyIndex(row) >= 0 ==>
      before + RowsText(rows[..k + 1]) == (before + RowsText(rows[..k])) + [JoinComma(row[..LastNonEmptyIndex(row) + 1])]
    ensures LastNonEmptyIndex(row) < 0 ==>
      before + RowsText(rows[..k + 1]) == before + RowsText(rows[..k])
  {
    RowLinesOf(rows[k], row);
    RowsTextSnoc(rows, k, before);
  }

  /** A row's line, in terms of the field texts LoadRows collects for it. */
  lemma RowLinesOf(cells: seq<Option<string>>, row: seq<string>)
    requires |row| == |cells| && forall j :: 0 <= j < |cells| ==> row[j] == CellText(cells[j])
    ensures LastNonEmptyIndex(row) >= 0 ==> RowLines(cells) == [JoinComma(row[..LastNonEmptyIndex(row) + 1])]
    ensures LastNonEmptyIndex(row) < 0 ==> RowLines(cells) == []
  {
    assert row == RowTexts(cells);
  }
  /** The lines after one more result set: those before it, its header, its rows. */
  lemma TextLinesSnoc(sets: seq<RowSet>, k: nat)
    requires k < |sets|
    ensures TextLines(sets[..k + 1]) == (TextLines(sets[..k]) + [Header(sets[k].name)]) + RowsText(sets[k].rows)
  {
    assert sets[..k + 1][..k] == sets[..k];
    var a := TextLines(sets[..k]);
    assert a + Block(sets[k]) == (a + [Header(sets[k].name)]) + RowsText(sets[k].rows);
  }

  /**
   * Truncation drops exactly the trailing empty fields: the kept fields are a prefix
   * that is empty or ends in a non-empty field, everything after it is empty, and
   * nothing is kept exactly when every field is empty.
   */
  lemma TrimKeepsInterior(fields: seq<string>)
    ensures var kept := fields[..LastNonEmptyIndex(fields) + 1];
      && (kept == [] || kept[|kept| - 1] != "")
      && (forall k :: |kept| <= k < |fields| ==> fields[k] == "")
      && (kept == [] <==> forall k :: 0 <= k < |fields| ==> fields[k] == "")
  {
    var kept := fields[..LastNonEmptyIndex(fields) + 1];
    if kept != [] {
      assert kept[|kept| - 1] == fields[LastNonEmptyIndex(fields)];
    }
  }

  /** Joining ends with the last field: a line ends in a comma only if its last field does. */
  lemma {:induction false} JoinEndsWithLast(fields: seq<string>)
    requires |fields| > 0
    ensures var line, last := JoinComma(fields), fields[|fields| - 1];
      |last| <= |line| && line[|line| - |last|..] == last
  {
    if |fields| > 1 {
      JoinEndsWithLast(fields[1..]);
      var rest := JoinComma(fields[1..]);
      assert JoinComma(fields) == (fields[0] + ",") + rest;
    }
  }

  /** An emitted line ends with ',' only when its last kept field does. */
  lemma LineEndsWithComma(row: seq<Option<string>>)
    requires RowLine(row).Some?
    ensures var fields := RowTexts(row);
      var kept := fields[..LastNonEmptyIndex(fields) + 1];
      var line := RowLine(row).value;
      && kept != [] && kept[|kept| - 1] != ""
      && (line[|line| - 1] == ',' ==> kept[|kept| - 1][|kept[|kept| - 1]| - 1] == ',')
  {
    var fields := RowTexts(row);
    var kept := fields[..LastNonEmptyIndex(fields) + 1];
    TrimKeepsInterior(fields);
    JoinEndsWithLast(kept);
  }

  /** A row emits a line exactly when one of its cells is non-null and non-empty. */
  lemma RowLineIffNonEmpty(row: seq<Option<string>>)
    ensures RowLine(row).Some? <==> exists k :: 0 <= k < |row| && CellText(row[k]) != ""
  {
    var fields := RowTexts(row);
    var last := LastNonEmptyIndex(fields);
    if last >= 0 {
      assert CellText(row[last]) != "";
    } else {
      forall k | 0 <= k < |row|
        ensures CellText(row[k]) == ""
      {
        assert fields[k] == CellText(row[k]);
      }
    }
  }

  /**
   * The data lines correspond one-to-one, in source order, to the rows that have a
   * non-empty field: `idx` lists those rows' positions in increasing order, line m is
   * the line of row idx[m], and every row not listed emits nothing. The first row is
   * treated like every other.
   */
  lemma {:induction false} RowsTextMatchesRows(rows: seq<seq<Option<string>>>) returns (idx: seq<nat>)
    ensures LinesOfRows(rows, RowsText(rows), idx)
    decreases |rows|
  {
    if rows == [] {
      idx := [];
    } else {
      var prev := RowsTextMatchesRows(rows[..|rows| - 1]);
      idx := LinesOfRowsSnoc(rows, prev);
    }
  }

  /**
   * `idx` places the lines `text` on `rows`: one increasing row position per line,
   * line m is the line of row idx[m], and every row that emits a line is listed.
   */
  ghost predicate LinesOfRows(rows: seq<seq<Option<string>>>, text: seq<string>, idx: seq<nat>) {
    && |idx| == |text|
    && (forall m :: 0 <= m < |idx| ==> idx[m] < |rows| && RowLine(rows[idx[m]]) == Some(text[m]))
    && (forall m, m' :: 0 <= m < m' < |idx| ==> idx[m] < idx[m'])
    && (forall j :: 0 <= j < |rows| && RowLine(rows[j]).Some? ==> j in idx)
  }

  /** The placement extends by one row: the last row's line, if any, goes last. */
  lemma LinesOfRowsSnoc(rows: seq<seq<Option<string>>>, prev: seq<nat>) returns (idx: seq<nat>)
    requires |rows| > 0
    requires LinesOfRows(rows[..|rows| - 1], RowsText(rows[..|rows| - 1]), prev)
    ensures LinesOfRows(rows, RowsText(rows), idx)
  {
    var n := |rows| - 1;
    var init := rows[..n];
    var a := RowsText(init);
    LinesOfRowsWiden(init, rows, a, prev);
    match RowLine(rows[n])
    case Some(line) =>
      assert RowsText(rows) == a + [line];
      idx := prev + [n];
      LinesOfRowsAppend(rows, a, prev, line);
    case None =>
      assert RowsText(rows) == a + [] == a;
      idx := prev;
  }

  /** A placement on a prefix of the rows places the same lines on all the rows, bar coverage of the new ones. */
  lemma LinesOfRowsWiden(init: seq<seq<Option<string>>>, rows: seq<seq<Option<string>>>, text: seq<string>, idx: seq<nat>)
    requires |init| <= |rows| && init == rows[..|init|]
    requires LinesOfRows(init, text, idx)
    ensures |idx| == |text|
    ensures forall m :: 0 <= m < |idx| ==> idx[m] < |init| && RowLine(rows[idx[m]]) == Some(text[m])
    ensures forall m, m' :: 0 <= m < m' < |idx| ==> idx[m] < idx[m']
    ensures forall j :: 0 <= j < |init| && RowLine(rows[j]).Some? ==> j in idx
  {
    forall j | 0 <= j < |init| && RowLine(rows[j]).Some?
      ensures j in idx
    {
      assert init[j] == rows[j];
    }
  }

  /** The last row's line, placed last, completes the placement. */
  lemma LinesOfRowsAppend(rows: seq<seq<Option<string>>>, text: seq<string>, prev: seq<nat>, line: string)
    requires |rows| > 0 && RowLine(rows[|rows| - 1]) == Some(line)
    requires |prev| == |text|
    requires forall m :: 0 <= m < |prev| ==> prev[m] < |rows| - 1 && RowLine(rows[prev[m]]) == Some(text[m])
    requires forall m, m' :: 0 <= m < m' < |prev| ==> prev[m] < prev[m']
    requires forall j :: 0 <= j < |rows| - 1 && RowLine(rows[j]).Some? ==> j in prev
    ensures LinesOfRows(rows, text + [line], prev + [|rows| - 1])
  {
    var idx := prev + [|rows| - 1];
    forall j | 0 <= j < |rows| && RowLine(rows[j]).Some?
      ensures j in idx
    {
      if j < |rows| - 1 {
        assert j in prev;
      }
    }
  }

  /**
   * Result set k's block sits in the output at HeaderIndex(sets, k): its header line
   * there, followed by its data lines.
   */
  predicate BlockPlaced(sets: seq<RowSet>, k: nat)
    requires k < |sets|
  {
    && HeaderIndex(sets, k) + |Block(sets[k])| <= |TextLines(sets)|
    && TextLines(sets)[HeaderIndex(sets, k)..HeaderIndex(sets, k) + |Block(sets[k])|] == Block(sets[k])
    && TextLines(sets)[HeaderIndex(sets, k)] == Header(sets[k].name)
  }

  /**
   * Block structure of the output: result set k contributes exactly its header line
   * followed by its data lines, at the position all earlier blocks end; the output
   * has one header line per result set plus the data lines.
   */
  lemma {:induction false} BlockAt(sets: seq<RowSet>, k: nat)
    requires k < |sets|
    ensures BlockPlaced(sets, k)
    decreases |sets|
  {
    var n := |sets| - 1;
    if k == n {
      LastBlockAt(sets, k);
    } else {
      BlockAt(sets[..n], k);
      BlockAtInit(sets, k);
    }
  }

  /** The last result set's block ends the output. */
  lemma LastBlockAt(sets: seq<RowSet>, k: nat)
    requires k == |sets| - 1
    ensures BlockPlaced(sets, k)
  {
    var a, b := TextLines(sets[..k]), Block(sets[k]);
    assert TextLines(sets) == a + b;
    assert (a + b)[|a|..|a| + |b|] == b;
    assert b[0] == Header(sets[k].name);
  }

  /** A block found in the output of all but the last result set stays where it is. */
  lemma BlockAtInit(sets: seq<RowSet>, k: nat)
    requires k < |sets| - 1
    requires BlockPlaced(sets[..|sets| - 1], k)
    ensures BlockPlaced(sets, k)
  {
    var init := sets[..|sets| - 1];
    assert init[..k] == sets[..k] && init[k] == sets[k];
    var a := TextLines(init);
    var h, len := HeaderIndex(init, k), |Block(sets[k])|;
    PrefixSlice(a, Block(sets[|sets| - 1]), h, h + len);
    assert Block(sets[k])[0] == Header(sets[k].name);
  }

  /** A slice that lies within the first part of a concatenation is a slice of that part. */
  lemma PrefixSlice<T>(a: seq<T>, b: seq<T>, i: nat, j: nat)
    requires i <= j <= |a|
    ensures (a + b)[i..j] == a[i..j]
  {
  }

  /** The output length: one header per result set plus one line per non-blank row. */
  lemma {:induction false} TextLinesLength(sets: seq<RowSet>)
    ensures |TextLines(sets)| == |sets| + DataLineCount(sets)
    decreases |sets|
  {
    if sets != [] {
      TextLinesLength(sets[..|sets| - 1]);
      RowsTextCount(sets[|sets| - 1].rows);
    }
  }

  /** The rows of a result set that emit a line: those with a non-empty field. */
  function EmittingRows(rows: seq<seq<Option<string>>>): set<nat> {
    set k: nat | k < |rows| && RowLine(rows[k]).Some?
  }

  /** The number of rows, over all result sets, that emit a line. */
  function DataLineCount(sets: seq<RowSet>): nat {
    if sets == [] then 0 else DataLineCount(sets[..|sets| - 1]) + |EmittingRows(sets[|sets| - 1].rows)|
  }

  /** A result set contributes one data line per emitting row. */
  lemma {:induction false} RowsTextCount(rows: seq<seq<Option<string>>>)
    ensures |RowsText(rows)| == |EmittingRows(rows)|
    decreases |rows|
  {
    if rows != [] {
      var n := |rows| - 1;
      RowsTextCount(rows[..n]);
      EmittingRowsSnoc(rows);
      assert |RowLines(rows[n])| == if RowLine(rows[n]).Some? then 1 else 0;
    }
  }

  /** Adding a row adds its index to the emitting rows exactly when it emits a line. */
  lemma EmittingRowsSnoc(rows: seq<seq<Option<string>>>)
    requires rows != []
    ensures var n := |rows| - 1;
      |EmittingRows(rows)| == |EmittingRows(rows[..n])| + if RowLine(rows[n]).Some? then 1 else 0
  {
    var n := |rows| - 1;
    EmittingRowsInit(rows);
    CardinalityAddOne(EmittingRows(rows[..n]), EmittingRows(rows), n);
  }

  /** The emitting rows other than the last are those of the rows before it. */
  lemma EmittingRowsInit(rows: seq<seq<Option<string>>>)
    requires rows != []
    ensures var n := |rows| - 1;
      && EmittingRows(rows) - {n} == EmittingRows(rows[..n])
      && (n in EmittingRows(rows) <==> RowLine(rows[n]).Some?)
  {
    var n := |rows| - 1;
    forall k: nat | k < n
      ensures k in EmittingRows(rows) <==> k in EmittingRows(rows[..n])
    {
      assert rows[..n][k] == rows[k];
    }
  }

  /** A set that differs from another by at most one new element `n`. */
  lemma CardinalityAddOne(a: set<nat>, b: set<nat>, n: nat)
    requires b - {n} == a
    ensures |b| == |a| + if n in b then 1 else 0
  {
    if n in b {
      assert b == a + {n};
    } else {
      assert b == a;
    }
  }

  // ---------------------------------------------------------------------------
  // Examples.
  /** Interior empties stay, trailing empties go: a,"",b,"","" gives "a,,b". */
  lemma TrailingEmptiesDropped()
    ensures RowLine([Some("a"), Some(""), Some("b"), Some(""), None]) == Some("a,,b")
  {
    var fields := RowTexts([Some("a"), Some(""), Some("b"), Some(""), None]);
    assert fields == ["a", "", "b", "", ""];
    var r := LastNonEmptyIndex(fields);
    assert fields[2] != "";
    assert r == 2;
    assert fields[..3] == ["a", "", "b"];
    assert ["a", "", "b"][1..] == ["", "b"];
    assert ["", "b"][1..] == ["b"];
    assert JoinComma(["", "b"]) == "" + "," + "b";
    assert "a" + "," + ("" + "," + "b") == "a,,b";
  }

  /** A whitespace-only cell is not empty (the test is IsNullOrEmpty), so its row is emitted. */
  lemma WhitespaceIsNotEmpty()
    ensures RowLine([Some(" "), None]) == Some(" ")
    ensures RowLine([Some(""), None]) == None
  {
    assert RowTexts([Some(" "), None]) == [" ", ""];
    assert [" ", ""][..1] == [" "];
    assert RowTexts([Some(""), None]) == ["", ""];
  }

  /**
   * The join does no escaping: a single field holding a comma and two fields give the
   * same line, so the text cannot be parsed back into rows.
   */
  lemma JoinNotInvertible()
    ensures RowLine([Some("a,b")]) == RowLine([Some("a"), Some("b")]) == Some("a,b")
  {
    assert RowTexts([Some("a,b")]) == ["a,b"];
    assert ["a,b"][..1] == ["a,b"];
    assert RowTexts([Some("a"), Some("b")]) == ["a", "b"];
    assert ["a", "b"][..2] == ["a", "b"];
    assert ["a", "b"][1..] == ["b"];
    assert "a" + "," + "b" == "a,b";
  }

  /**
   * A sheet "Config" with rows [meta], [1, A, ""], ["", ""] gives three lines: the
   * first row is not skipped, the blank row is dropped, the trailing empty is trimmed.
   */
  lemma ConfigExample()
    ensures TextLines([RowSet(Some("Config"), [[Some("meta")], [Some("1"), Some("A"), Some("")], [Some(""), Some("")]])])
         == ["===[Config]===", "meta", "1,A"]
  {
    var rows := [[Some("meta")], [Some("1"), Some("A"), Some("")], [Some(""), Some("")]];
    ConfigRowLines();
    OneSetThreeRows(RowSet(Some("Config"), rows));
    assert Header(Some("Config")) == "===[Config]===";
  }

  /** A single result set of three rows: its header, then each row's line if any. */
  lemma OneSetThreeRows(rs: RowSet)
    requires |rs.rows| == 3
    ensures TextLines([rs]) == [Header(rs.name)] + (RowLines(rs.rows[0]) + RowLines(rs.rows[1]) + RowLines(rs.rows[2]))
  {
    assert [rs][..0] == [];
    ThreeRows(rs.rows[0], rs.rows[1], rs.rows[2]);
    assert rs.rows == [rs.rows[0], rs.rows[1], rs.rows[2]];
  }

  lemma ThreeRows(r0: seq<Option<string>>, r1: seq<Option<string>>, r2: seq<Option<string>>)
    ensures RowsText([r0, r1, r2]) == RowLines(r0) + RowLines(r1) + RowLines(r2)
  {
    assert [r0][..0] == [];
    assert RowsText([r0]) == [] + RowLines(r0) == RowLines(r0);
    assert [r0, r1][..1] == [r0];
    assert RowsText([r0, r1]) == RowLines(r0) + RowLines(r1);
    assert [r0, r1, r2][..2] == [r0, r1];
  }

  /** The lines of the three rows of the "Config" example, one at a time. */
  lemma ConfigRowLines()
    ensures RowLines([Some("meta")]) == ["meta"]
    ensures RowLines([Some("1"), Some("A"), Some("")]) == ["1,A"]
    ensures RowLines([Some(""), Some("")]) == []
  {
    assert RowTexts([Some("meta")]) == ["meta"];
    assert ["meta"][..1] == ["meta"];
    var f1 := RowTexts([Some("1"), Some("A"), Some("")]);
    assert f1 == ["1", "A", ""];
    assert f1[1] != "";
    assert LastNonEmptyIndex(f1) == 1;
    assert f1[..2] == ["1", "A"];
    assert ["1", "A"][1..] == ["A"];
    assert "1" + "," + "A" == "1,A";
    assert RowTexts([Some(""), Some("")]) == ["", ""];
  }
}
