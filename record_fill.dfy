/**
 * Writing records back below the header (ExcelUtil.FillRecords): clear the old data
 * rows, sort the records by an int or long key, expand each record into its block of
 * rows, pad the rows into a dense buffer as wide as the header, and write the buffer
 * directly below the header.
 *
 * The worksheet's cells are a fixed-size 2-D array: grid[i, j] is Excel cell
 * (i + 1, j + 1).
 */
module RecordFill {
  import opened Wrappers
  import opened Sheets
  import opened TitleTree

  /** The declared type of the table's index field (DefField.CType). */
  datatype KeyType = TInt | TLong | TOther

  /** The value a record holds in its index field (the DType). */
  datatype KeyValue = DInt(i: int) | DLong(l: int) | DOther

  /** The number the comparer orders by; DOther is never compared successfully. */
  function KeyNumber(k: KeyValue): int {
    match k
    case DInt(v) => v
    case DLong(v) => v
    case DOther => 0
  }

  /** Records are sorted only when the index field exists and is int or long. */
  predicate SortsByKey(keyField: Option<KeyType>) {
    keyField == Some(TInt) || keyField == Some(TLong)
  }

  /**
   * List.Sort completes without the comparer throwing. The comparer throws on any
   * pair that is not two DInt or two DLong keys. A correct comparison sort of two or
   * more elements must compare pairs that connect all of them: were some group of
   * elements never compared with the rest, shifting that group's keys past the others
   * would leave every answer unchanged while the correct order changed. With keys of
   * mixed kinds, or any DOther key, some compared pair therefore throws; so the sort
   * completes exactly when there are fewer than two records or all keys are DInt, or
   * all are DLong.
   */
  predicate SortSucceeds<R>(records: seq<R>, key: R -> KeyValue) {
    || |records| < 2
    || (forall k :: 0 <= k < |records| ==> key(records[k]).DInt?)
    || (forall k :: 0 <= k < |records| ==> key(records[k]).DLong?)
  }

  predicate SortedByKey<R>(s: seq<R>, key: R -> KeyValue) {
    forall p, q :: 0 <= p < q < |s| ==> KeyNumber(key(s[p])) <= KeyNumber(key(s[q]))
  }

  /**
   * The rows the FillSheetVisitor of each record produces, block after block.
   * FillSheetVisitor and DType.Apply are not part of this model: `rowsOf` stands for them.
   */
  function Expand<R>(records: seq<R>, rowsOf: R -> seq<seq<Value>>): seq<seq<Value>> {
    if records == [] then []
    else Expand(records[..|records| - 1], rowsOf) + rowsOf(records[|records| - 1])
  }

  /** The running row offset at which record k's block starts. */
  function Offset<R>(records: seq<R>, rowsOf: R -> seq<seq<Value>>, k: nat): nat
    requires k <= |records|
  {
    |Expand(records[..k], rowsOf)|
  }

  /** Buffer cell [i, j]: the row's j-th value when it has one, null past its end. */
  function BufferCell(rows: seq<seq<Value>>, i: int, j: int): Value
    requires 0 <= i < |rows| && 0 <= j
  {
    if j < |rows[i]| then rows[i][j] else Null
  }

  /** Grid cell (i, j) after the old data rows [top, usedRowNum) are cleared. */
  function Cleared(v: Value, i: int, j: int, top: int, usedRowNum: int, usedColumnNum: int): Value {
    if top <= i < usedRowNum && 0 <= j < usedColumnNum then Null else v
  }

  /** Grid cell (i, j) after the buffer of `rows`, `width` wide, is written from row `top`. */
  function Filled(v: Value, i: int, j: int, top: int, rows: seq<seq<Value>>, width: int): Value {
    if top <= i < top + |rows| && 0 <= j < width then BufferCell(rows, i - top, j) else v
  }

  /** The whole fill-back of one cell: cleared, then overwritten by the buffer. */
  function Refilled(v: Value, i: int, j: int, top: int, usedRowNum: int, usedColumnNum: int,
                    rows: seq<seq<Value>>, width: int): Value
  {
    Filled(Cleared(v, i, j, top, usedRowNum, usedColumnNum), i, j, top, rows, width)
  }

  // ---------------------------------------------------------------------------
  // Methods: the source's steps.

  /** Range.ClearContents over rows [top, bottom) and columns [0, columns). */
  method ClearRange(grid: array2<Value>, top: nat, bottom: nat, columns: nat)
    requires bottom <= grid.Length0 && columns <= grid.Length1
    modifies grid
    ensures forall i, j :: 0 <= i < grid.Length0 && 0 <= j < grid.Length1 ==>
      grid[i, j] == Cleared(old(grid[i, j]), i, j, top, bottom, columns)
  {
    forall i, j | top <= i < bottom && 0 <= j < columns {
      grid[i, j] := Null;
    }
  }

  /** Range.Value := buf for the range whose top-left cell is grid[top, 0]. */
  method WriteRange(grid: array2<Value>, top: nat, buf: array2<Value>)
    requires grid != buf
    requires top + buf.Length0 <= grid.Length0 && buf.Length1 <= grid.Length1
    modifies grid
    ensures forall i, j :: 0 <= i < grid.Length0 && 0 <= j < grid.Length1 ==>
      grid[i, j] == if top <= i < top + buf.Length0 && j < buf.Length1 then buf[i - top, j] else old(grid[i, j])
  {
    forall i, j | 0 <= i < buf.Length0 && 0 <= j < buf.Length1 {
      grid[top + i, j] := buf[i, j];
    }
  }

  /** Exchange two neighbouring records. */
  method SwapAdjacent<R>(records: array<R>, j: int)
    requires 0 < j < records.Length
    modifies records
    ensures records[..] == old(records[..])[j - 1 := old(records[j])][j := old(records[j - 1])]
    ensures multiset(records[..]) == multiset(old(records[..]))
  {
    records[j - 1], records[j] := records[j], records[j - 1];
  }

  /**
   * List.Sort with the key comparer, as an in-place insertion sort: ascending by key
   * and a permutation; the order of equal keys is not specified.
   */
  method SortByKey<R>(records: array<R>, key: R -> KeyValue)
    modifies records
    ensures SortedByKey(records[..], key)
    ensures multiset(records[..]) == multiset(old(records[..]))
  {
    var i := 0;
    while i < records.Length
      invariant 0 <= i <= records.Length
      invariant SortedByKey(records[..i], key)
      invariant multiset(records[..]) == multiset(old(records[..]))
    {
      var j := i;
      while j > 0 && KeyNumber(key(records[j - 1])) > KeyNumber(key(records[j]))
        invariant 0 <= j <= i
        invariant multiset(records[..]) == multiset(old(records[..]))
        invariant forall p, q :: 0 <= p < q <= i && q != j ==>
          KeyNumber(key(records[p])) <= KeyNumber(key(records[q]))
      {
        SwapAdjacent(records, j);
        j := j - 1;
      }
      i := i + 1;
    }
  }

  /**
   * The sorting step of FillRecords: sort when the index field is int or long, fail
   * when the comparer throws, leave the records alone otherwise. A sort the comparer
   * aborts may already have moved records, so on failure only the permutation is
   * promised.
   */
  method SortRecords<R>(keyField: Option<KeyType>, records: array<R>, key: R -> KeyValue)
    returns (r: Result<(), Error>)
    modifies records
    ensures r.Err? <==> SortsByKey(keyField) && !SortSucceeds(old(records[..]), key)
    ensures r.Err? ==> r.error == KeyNotSupported
    ensures multiset(records[..]) == multiset(old(records[..]))
    ensures !SortsByKey(keyField) ==> records[..] == old(records[..])
    ensures r.Ok? && SortsByKey(keyField) ==> SortedByKey(records[..], key)
  {
    if SortsByKey(keyField) {
      if !SortSucceeds(records[..], key) {
        return Err(KeyNotSupported);
      }
      SortByKey(records, key);
    }
    r := Ok(());
  }

  /**
   * The visitor loop of FillRecords: each record's rows appended at the running
   * offset totalRowCount.
   */
  method ExpandRecords<R>(records: array<R>, rowsOf: R -> seq<seq<Value>>) returns (dataRangeArray: seq<seq<Value>>)
    ensures dataRangeArray == Expand(records[..], rowsOf)
  {
    var totalRowCount := 0;
    dataRangeArray := [];
    for k := 0 to records.Length
      invariant dataRangeArray == Expand(records[..k], rowsOf)
      invariant totalRowCount == |dataRangeArray|
    {
      assert records[..k + 1][..k] == records[..k];
      var block := rowsOf(records[k]);
      dataRangeArray := dataRangeArray + block;
      totalRowCount := totalRowCount + |block|;
    }
    assert records[..records.Length] == records[..];
  }

  /**
   * The dense Count x width buffer: rows copied element by element, null padding;
   * a row longer than the buffer throws IndexOutOfRangeException.
   */
  method BuildBuffer(rows: seq<seq<Value>>, width: nat) returns (r: Result<array2<Value>, Error>)
    ensures r.Err? <==> exists i :: 0 <= i < |rows| && |rows[i]| > width
    ensures r.Err? ==> r.error == IndexOutOfRange
    ensures r.Ok? ==> && fresh(r.value) && r.value.Length0 == |rows| && r.value.Length1 == width
                      && forall i, j :: 0 <= i < |rows| && 0 <= j < width ==> r.value[i, j] == BufferCell(rows, i, j)
  {
    var buf := new Value[|rows|, width]((i, j) => Null);
    for i := 0 to |rows|
      invariant forall p :: 0 <= p < i ==> |rows[p]| <= width
      invariant forall p, q :: 0 <= p < |rows| && 0 <= q < width ==>
        buf[p, q] == if p < i then BufferCell(rows, p, q) else Null
    {
      var row := rows[i];
      for j := 0 to |row|
        invariant j <= width
        invariant forall p, q :: 0 <= p < |rows| && 0 <= q < width ==>
          buf[p, q] == if p < i || (p == i && q < j) then BufferCell(rows, p, q) else Null
      {
        if j >= width {
          return Err(IndexOutOfRange);
        }
        buf[i, j] := row[j];
      }
    }
    r := Ok(buf);
  }

  /**
   * ExcelUtil.FillRecords. `usedRowNum` and `usedColumnNum` are the used range's
   * row and column counts; `titleRowNum` is the number of title rows, so the header
   * occupies grid rows [0, titleRowNum] and data starts at grid row titleRowNum + 1.
   */
  method FillRecords<R>(grid: array2<Value>, usedRowNum: nat, usedColumnNum: nat, titleRowNum: nat,
                        title: Title, keyField: Option<KeyType>, records: array<R>,
                        key: R -> KeyValue, rowsOf: R -> seq<seq<Value>>)
    returns (r: Result<(), Error>)
    requires usedRowNum <= grid.Length0 && 1 <= usedColumnNum <= grid.Length1
    requires 0 <= title.toIndex
    modifies grid, records
    ensures r == Err(KeyNotSupported) <==> SortsByKey(keyField) && !SortSucceeds(old(records[..]), key)
    ensures r.Err? ==> r.error == KeyNotSupported || r.error == IndexOutOfRange || r.error == OutOfSheet
    ensures r.Ok? <==>
      var rows := Expand(records[..], rowsOf);
      && !(SortsByKey(keyField) && !SortSucceeds(old(records[..]), key))
      && (forall i :: 0 <= i < |rows| ==> |rows[i]| <= title.toIndex + 1)
      && (|rows| == 0 || (titleRowNum + 1 + |rows| <= grid.Length0 && title.toIndex + 1 <= grid.Length1))
    ensures multiset(records[..]) == multiset(old(records[..]))
    ensures !SortsByKey(keyField) ==> records[..] == old(records[..])
    ensures SortsByKey(keyField) && SortSucceeds(old(records[..]), key) ==> SortedByKey(records[..], key)
    ensures r != Err(KeyNotSupported) ==>
      var rows := Expand(records[..], rowsOf);
      && (r == Err(IndexOutOfRange) <==> exists i :: 0 <= i < |rows| && |rows[i]| > title.toIndex + 1)
      && (r == Err(OutOfSheet) <==>
            (forall i :: 0 <= i < |rows| ==> |rows[i]| <= title.toIndex + 1)
            && |rows| > 0 && (titleRowNum + 1 + |rows| > grid.Length0 || title.toIndex + 1 > grid.Length1))
    ensures r.Ok? ==>
      forall i, j :: 0 <= i < grid.Length0 && 0 <= j < grid.Length1 ==>
        grid[i, j] == Refilled(old(grid[i, j]), i, j, titleRowNum + 1, usedRowNum, usedColumnNum,
                               Expand(records[..], rowsOf), title.toIndex + 1)
    ensures r.Err? ==>
      forall i, j :: 0 <= i < grid.Length0 && 0 <= j < grid.Length1 ==>
        grid[i, j] == Cleared(old(grid[i, j]), i, j, titleRowNum + 1, usedRowNum, usedColumnNum)
  {
    if usedRowNum > titleRowNum + 1 {
      ClearRange(grid, titleRowNum + 1, usedRowNum, usedColumnNum);
    }
    r := SortRecords(keyField, records, key);
    if r.Err? {
      return;
    }
    var dataRangeArray := ExpandRecords(records, rowsOf);
    var width := title.toIndex + 1;
    var buf :- BuildBuffer(dataRangeArray, width);
    if |dataRangeArray| > 0 {
      if titleRowNum + 1 + |dataRangeArray| > grid.Length0 || width > grid.Length1 {
        return Err(OutOfSheet);
      }
      WriteRange(grid, titleRowNum + 1, buf);
    }
    r := Ok(());
  }

  // ---------------------------------------------------------------------------
  // Lemmas.

  /**
   * Record k's rows sit in the concatenation at its running offset: row j of its
   * block is row Offset(k) + j of the whole.
   */
  lemma {:induction false} ExpandBlocks<R>(records: seq<R>, rowsOf: R -> seq<seq<Value>>, k: nat, j: nat)
    requires k < |records| && j < |rowsOf(records[k])|
    ensures Offset(records, rowsOf, k) + j < |Expand(records, rowsOf)|
    ensures Expand(records, rowsOf)[Offset(records, rowsOf, k) + j] == rowsOf(records[k])[j]
    decreases |records|
  {
    var n := |records|;
    var init := records[..n - 1];
    if k == n - 1 {
      assert records[..k] == init;
    } else {
      ExpandBlocks(init, rowsOf, k, j);
      assert init[..k] == records[..k];
    }
  }

  /** The blocks fill the concatenation exactly: its length is the sum of the block sizes. */
  lemma {:induction false} ExpandLength<R>(records: seq<R>, rowsOf: R -> seq<seq<Value>>, k: nat)
    requires k < |records|
    ensures Offset(records, rowsOf, k + 1) == Offset(records, rowsOf, k) + |rowsOf(records[k])|
  {
    assert records[..k + 1][..k] == records[..k];
  }

  /**
   * With unique keys the sorted order is determined: two sorted permutations of the
   * same records are equal, so sorting again reproduces the same order.
   */
  lemma {:induction false} SortedPermutationUnique<R>(s: seq<R>, t: seq<R>, key: R -> KeyValue)
    requires multiset(s) == multiset(t)
    requires SortedByKey(s, key) && SortedByKey(t, key)
    requires forall p, q :: 0 <= p < |s| && 0 <= q < |s| && KeyNumber(key(s[p])) == KeyNumber(key(s[q])) ==> s[p] == s[q]
    ensures s == t
    decreases |s|
  {
    assert |s| == |t| by {
      assert |s| == |multiset(s)| && |t| == |multiset(t)|;
    }
    if |s| > 0 {
      SortedHeadsEqual(s, t, key);
      TailsPermutation(s, t);
      SortedPermutationUnique(s[1..], t[1..], key);
      assert s == [s[0]] + s[1..] && t == [t[0]] + t[1..];
    }
  }

  /** Two sorted permutations with unique keys start with the same record. */
  lemma SortedHeadsEqual<R>(s: seq<R>, t: seq<R>, key: R -> KeyValue)
    requires |s| > 0 && |t| > 0 && multiset(s) == multiset(t)
    requires SortedByKey(s, key) && SortedByKey(t, key)
    requires forall p, q :: 0 <= p < |s| && 0 <= q < |s| && KeyNumber(key(s[p])) == KeyNumber(key(s[q])) ==> s[p] == s[q]
    ensures s[0] == t[0]
  {
    var m :| 0 <= m < |t| && t[m] == s[0] by {
      assert s[0] in multiset(t);
    }
    var n :| 0 <= n < |s| && s[n] == t[0] by {
      assert t[0] in multiset(s);
    }
    assert KeyNumber(key(s[0])) <= KeyNumber(key(s[n]));
    assert KeyNumber(key(t[0])) <= KeyNumber(key(t[m]));
  }

  /** Removing the same first record from two permutations leaves permutations. */
  lemma TailsPermutation<R>(s: seq<R>, t: seq<R>)
    requires |s| > 0 && |t| > 0 && s[0] == t[0] && multiset(s) == multiset(t)
    ensures multiset(s[1..]) == multiset(t[1..])
  {
    assert s == [s[0]] + s[1..] && t == [t[0]] + t[1..];
    assert multiset(s[1..]) == multiset(s) - multiset{s[0]};
    assert multiset(t[1..]) == multiset(t) - multiset{t[0]};
  }

  /**
   * Filling again leaves the sheet as it is: if every cell outside the used range is
   * empty, a second fill with the same rows, whatever used range it then sees,
   * reproduces the first fill's value in every cell.
   */
  lemma RefillIdempotent(v: Value, i: int, j: int, top: int, usedRowNum: int, usedColumnNum: int,
                         usedRowNum': int, usedColumnNum': int, rows: seq<seq<Value>>, width: int)
    requires 0 <= j
    requires i >= usedRowNum || j >= usedColumnNum ==> v == Null
    ensures var once := Refilled(v, i, j, top, usedRowNum, usedColumnNum, rows, width);
      Refilled(once, i, j, top, usedRowNum', usedColumnNum', rows, width) == once
  {
  }
}
