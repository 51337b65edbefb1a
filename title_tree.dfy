/**
 * The header tree of a row-oriented table sheet (ExcelUtil.ParseTitles and
 * ExcelUtil.ParseSubTitle). Rows 2 .. titleRows + 1 below the meta row hold the
 * header. A non-blank cell of row 2 opens a child of the root. A non-blank cell of a
 * lower row opens one child under each node of the row above whose column range
 * contains it, and none if no such node does. Each child spans as many columns as
 * the cell's merge area has cells (the merge's width only when the merge is one row
 * high).
 *
 * Column indices in a Title are 0-based; header cell (row, i + 1) is the cell of
 * 0-based column i.
 */
module TitleTree {
  import opened Wrappers
  import opened Sheets

  /** A header node spanning the inclusive column range [fromIndex, toIndex]. */
  datatype Title = Title(
    name: string,
    fromIndex: int,
    toIndex: int,
    tags: map<string, string>,
    root: bool,
    subTitles: seq<Title>)

  /** A header cell's text split into its name and its tags. */
  datatype NameTags = NameTags(name: string, tags: map<string, string>)

  /**
   * SheetLoadUtil.ParseNameAndMetaAttrs, whose source is not part of this model:
   * None stands for the exception it raises on malformed tag text.
   */
  type NameParser = string -> Option<NameTags>

  /** Header cell (row, i + 1) is null or whitespace-only, so it adds no child. */
  predicate Blank(sheet: Sheet, row: int, i: int) {
    IsNullOrWhiteSpace(sheet.text(row, i + 1))
  }

  /** The last column of the child opened by header cell (row, i + 1). */
  function MergeEnd(sheet: Sheet, row: int, i: int): int {
    if sheet.mergeCells(row, i + 1) then i + sheet.mergeAreaCount(row, i + 1) - 1 else i
  }

  /** The childless node a non-blank header cell (row, i + 1) opens. */
  function NewSubTitle(sheet: Sheet, parse: NameParser, row: int, i: int): Result<Title, Error>
    requires !Blank(sheet, row, i)
  {
    match parse(sheet.text(row, i + 1).value)
    case None => Err(TitleFormat(row, i + 1))
    case Some(nt) => Ok(Title(nt.name, i, MergeEnd(sheet, row, i), nt.tags, false, []))
  }

  /** The children that `row` opens for the columns [from, upTo), left to right. */
  function RowChildren(sheet: Sheet, parse: NameParser, row: int, from: int, upTo: int): (r: Result<seq<Title>, Error>)
    ensures r.Err? ==> r.error.TitleFormat? && r.error.row == row && from < r.error.col <= upTo
    decreases upTo - from
  {
    if upTo <= from then Ok([])
    else
      match RowChildren(sheet, parse, row, from, upTo - 1)
      case Err(e) => Err(e)
      case Ok(cs) =>
        if Blank(sheet, row, upTo - 1) then Ok(cs)
        else
          match NewSubTitle(sheet, parse, row, upTo - 1)
          case Err(e) => Err(e)
          case Ok(c) => Ok(cs + [c])
  }

  /**
   * `title` after ParseSubTitle(sheet, rowIndex, maxRowIndex, title): the children
   * of row `rowIndex` appended, then every child grown from the next row while
   * rowIndex < maxRowIndex.
   */
  function Grow(sheet: Sheet, parse: NameParser, rowIndex: int, maxRowIndex: int, title: Title): (r: Result<Title, Error>)
    ensures r.Ok? ==> r.value == title.(subTitles := r.value.subTitles)
    ensures r.Err? ==> r.error.TitleFormat? && r.error.row >= rowIndex
    decreases maxRowIndex - rowIndex, 0, 0
  {
    match RowChildren(sheet, parse, rowIndex, title.fromIndex, title.toIndex + 1)
    case Err(e) => Err(e)
    case Ok(cs) =>
      var subs := title.subTitles + cs;
      if rowIndex < maxRowIndex then
        match GrowAll(sheet, parse, rowIndex + 1, maxRowIndex, subs)
        case Err(e) => Err(e)
        case Ok(grown) => Ok(title.(subTitles := grown))
      else
        Ok(title.(subTitles := subs))
  }

  /** Every title of `ts` grown from `rowIndex`, in order; the first failure wins. */
  function GrowAll(sheet: Sheet, parse: NameParser, rowIndex: int, maxRowIndex: int, ts: seq<Title>): (r: Result<seq<Title>, Error>)
    ensures r.Ok? ==> |r.value| == |ts|
    ensures r.Err? ==> r.error.TitleFormat? && r.error.row >= rowIndex
    decreases maxRowIndex - rowIndex, 1, |ts|
  {
    if ts == [] then Ok([])
    else
      match GrowAll(sheet, parse, rowIndex, maxRowIndex, ts[..|ts| - 1])
      case Err(e) => Err(e)
      case Ok(gs) =>
        match Grow(sheet, parse, rowIndex, maxRowIndex, ts[|ts| - 1])
        case Err(e) => Err(e)
        case Ok(g) => Ok(gs + [g])
  }

  /** Enumerable.Max over the children's ToIndex. */
  function MaxToIndex(ts: seq<Title>): (m: int)
    requires |ts| > 0
    ensures forall k :: 0 <= k < |ts| ==> ts[k].toIndex <= m
    ensures exists k :: 0 <= k < |ts| && ts[k].toIndex == m
  {
    if |ts| == 1 then ts[0].toIndex
    else
      var rest := MaxToIndex(ts[1..]);
      if ts[0].toIndex > rest then ts[0].toIndex else rest
  }

  /** Header depth: the merge count of cell (2, 1) when it is merged, else 1. */
  function HeaderDepth(sheet: Sheet): (r: int)
    ensures !sheet.mergeCells(2, 1) ==> r == 1
    ensures sheet.mergeCells(2, 1) ==> r == sheet.mergeAreaCount(2, 1)
  {
    if sheet.mergeCells(2, 1) then sheet.mergeAreaCount(2, 1) else 1
  }

  /** The root before its children are parsed: all used columns. */
  function InitialRoot(sheet: Sheet): Title {
    Title("__root__", 0, sheet.usedColumns - 1, map[], true, [])
  }

  /** The tree ParseTitles returns. */
  function Titles(sheet: Sheet, parse: NameParser): Result<Title, Error> {
    match Grow(sheet, parse, 2, HeaderDepth(sheet) + 1, InitialRoot(sheet))
    case Err(e) => Err(e)
    case Ok(t) =>
      if |t.subTitles| == 0 then Err(NoHeaderColumns)
      else Ok(t.(toIndex := MaxToIndex(t.subTitles)))
  }

  // ---------------------------------------------------------------------------
  // The header, stated without reference to how it is built.

  /** `c` is the node that header cell (row, c.fromIndex + 1) opens, children aside. */
  predicate Labelled(sheet: Sheet, parse: NameParser, row: int, c: Title) {
    && !Blank(sheet, row, c.fromIndex)
    && parse(sheet.text(row, c.fromIndex + 1).value) == Some(NameTags(c.name, c.tags))
    && c.toIndex == MergeEnd(sheet, row, c.fromIndex)
    && !c.root
  }

  /**
   * `cs` are the children of a node spanning [from, to] whose header row is `row`:
   * one child per non-blank column of the range, in increasing column order, each
   * labelled by its cell, and each with the children of the next row down to
   * `maxRow` (none past it).
   */
  predicate Shaped(sheet: Sheet, parse: NameParser, row: int, maxRow: int, from: int, to: int, cs: seq<Title>)
    decreases maxRow - row
  {
    && (forall k :: 0 <= k < |cs| ==> from <= cs[k].fromIndex <= to && Labelled(sheet, parse, row, cs[k]))
    && (forall k, l :: 0 <= k < l < |cs| ==> cs[k].fromIndex < cs[l].fromIndex)
    && (forall j :: from <= j <= to && !Blank(sheet, row, j) ==> exists k :: 0 <= k < |cs| && cs[k].fromIndex == j)
    && if row < maxRow then
         forall k :: 0 <= k < |cs| ==>
           Shaped(sheet, parse, row + 1, maxRow, cs[k].fromIndex, cs[k].toIndex, cs[k].subTitles)
       else
         forall k :: 0 <= k < |cs| ==> cs[k].subTitles == []
  }

  /** No path below `t` is longer than `n` edges. */
  predicate DepthAtMost(t: Title, n: int)
    decreases t
  {
    t.subTitles == [] || (n > 0 && forall k :: 0 <= k < |t.subTitles| ==> DepthAtMost(t.subTitles[k], n - 1))
  }

  /** Every node of the subtree spans at least one column: FromIndex <= ToIndex. */
  predicate SpansColumns(t: Title)
    decreases t
  {
    t.fromIndex <= t.toIndex && forall k :: 0 <= k < |t.subTitles| ==> SpansColumns(t.subTitles[k])
  }

  // ---------------------------------------------------------------------------
  // Methods: the source's loops.

  /** ExcelUtil.ParseSubTitle: append row `rowIndex`'s children, then recurse into each. */
  method ParseSubTitle(sheet: Sheet, parse: NameParser, rowIndex: int, maxRowIndex: int, title: Title)
    returns (r: Result<Title, Error>)
    ensures r == Grow(sheet, parse, rowIndex, maxRowIndex, title)
    decreases maxRowIndex - rowIndex
  {
    GrowInRow(sheet, parse, rowIndex, maxRowIndex, title);
    var added :- AddRowSubTitles(sheet, parse, rowIndex, title);
    var subTitles := title.subTitles + added;
    if rowIndex < maxRowIndex {
      var grown: seq<Title> := [];
      var k := 0;
      while k < |subTitles|
        invariant 0 <= k <= |subTitles|
        invariant GrowAll(sheet, parse, rowIndex + 1, maxRowIndex, subTitles[..k]) == Ok(grown)
      {
        var g := ParseSubTitle(sheet, parse, rowIndex + 1, maxRowIndex, subTitles[k]);
        GrowAllSnoc(sheet, parse, rowIndex + 1, maxRowIndex, subTitles, k, grown);
        if g.Err? {
          GrowFailsBelow(sheet, parse, rowIndex, maxRowIndex, title, subTitles, k + 1);
          r := Err(g.error);
          return;
        }
        grown := grown + [g.value];
        k := k + 1;
      }
      assert subTitles[..k] == subTitles;
      GrowFromChildren(sheet, parse, rowIndex, maxRowIndex, title, grown);
      subTitles := grown;
    }
    r := Ok(title.(subTitles := subTitles));
  }

  /** Grow in terms of its own row: that row's error, or, on the last header row, its children. */
  lemma GrowInRow(sheet: Sheet, parse: NameParser, rowIndex: int, maxRowIndex: int, title: Title)
    ensures var row := RowChildren(sheet, parse, rowIndex, title.fromIndex, title.toIndex + 1);
      && (row.Err? ==> Grow(sheet, parse, rowIndex, maxRowIndex, title) == Err(row.error))
      && (row.Ok? && rowIndex >= maxRowIndex ==>
            Grow(sheet, parse, rowIndex, maxRowIndex, title) == Ok(title.(subTitles := title.subTitles + row.value)))
  {
  }

  /** Growing one more node extends GrowAll by that node's tree, or fails with its error. */
  lemma GrowAllSnoc(sheet: Sheet, parse: NameParser, rowIndex: int, maxRowIndex: int, ts: seq<Title>, k: nat,
                    grown: seq<Title>)
    requires k < |ts|
    requires GrowAll(sheet, parse, rowIndex, maxRowIndex, ts[..k]) == Ok(grown)
    ensures var g := Grow(sheet, parse, rowIndex, maxRowIndex, ts[k]);
      && (g.Err? ==> GrowAll(sheet, parse, rowIndex, maxRowIndex, ts[..k + 1]) == Err(g.error))
      && (g.Ok? ==> GrowAll(sheet, parse, rowIndex, maxRowIndex, ts[..k + 1]) == Ok(grown + [g.value]))
  {
    assert ts[..k + 1][..k] == ts[..k];
  }

  /**
   * The column loop of ParseSubTitle: the children that row `rowIndex` opens under
   * `title`, in the order AddSubTitle appends them, or the first malformed cell.
   */
  method AddRowSubTitles(sheet: Sheet, parse: NameParser, rowIndex: int, title: Title)
    returns (r: Result<seq<Title>, Error>)
    ensures r == RowChildren(sheet, parse, rowIndex, title.fromIndex, title.toIndex + 1)
  {
    var added: seq<Title> := [];
    var i := title.fromIndex;
    while i <= title.toIndex
      invariant title.fromIndex <= i
      invariant i <= title.toIndex + 1 || i == title.fromIndex
      invariant RowChildren(sheet, parse, rowIndex, title.fromIndex, i) == Ok(added)
    {
      var subTitleValue := sheet.text(rowIndex, i + 1);
      if IsNullOrWhiteSpace(subTitleValue) {
        i := i + 1;
        continue;
      }
      var nameTags := parse(subTitleValue.value);
      if nameTags.None? {
        r := Err(TitleFormat(rowIndex, i + 1));
        RowChildrenErrPersists(sheet, parse, rowIndex, title.fromIndex, i + 1, title.toIndex + 1);
        return;
      }
      var newSubTitle := Title(nameTags.value.name, i, 0, nameTags.value.tags, false, []);
      if sheet.mergeCells(rowIndex, i + 1) {
        newSubTitle := newSubTitle.(toIndex := i + sheet.mergeAreaCount(rowIndex, i + 1) - 1);
      } else {
        newSubTitle := newSubTitle.(toIndex := i);
      }
      added := added + [newSubTitle];
      i := i + 1;
    }
    r := Ok(added);
  }

  /**
   * The root ParseTitles returns: `__root__`, column 0, Root, no tags, at least one
   * child, and ToIndex the largest ToIndex among its children.
   */
  predicate IsHeaderRoot(t: Title) {
    && t.name == "__root__" && t.fromIndex == 0 && t.root && t.tags == map[]
    && |t.subTitles| > 0
    && (forall k :: 0 <= k < |t.subTitles| ==> t.subTitles[k].toIndex <= t.toIndex)
    && (exists k :: 0 <= k < |t.subTitles| && t.subTitles[k].toIndex == t.toIndex)
  }

  /** Resetting ToIndex of a grown initial root with children gives the header root. */
  lemma HeaderRootOf(sheet: Sheet, parse: NameParser, grown: Title)
    requires Grow(sheet, parse, 2, HeaderDepth(sheet) + 1, InitialRoot(sheet)) == Ok(grown)
    requires |grown.subTitles| > 0
    ensures Titles(sheet, parse) == Ok(grown.(toIndex := MaxToIndex(grown.subTitles)))
    ensures IsHeaderRoot(grown.(toIndex := MaxToIndex(grown.subTitles)))
  {
  }

  /** ExcelUtil.ParseTitles: probe the depth, grow the root, reset its ToIndex. */
  method ParseTitles(sheet: Sheet, parse: NameParser) returns (r: Result<Title, Error>)
    ensures r == Titles(sheet, parse)
    ensures r.Ok? ==> IsHeaderRoot(r.value)
  {
    var titleRows := 1;
    if sheet.mergeCells(2, 1) {
      titleRows := sheet.mergeAreaCount(2, 1);
    }
    var rootTitle := Title("__root__", 0, sheet.usedColumns - 1, map[], true, []);
    assert titleRows == HeaderDepth(sheet) && rootTitle == InitialRoot(sheet);
    var parsed :- ParseSubTitle(sheet, parse, 2, titleRows + 1, rootTitle);
    if |parsed.subTitles| == 0 {
      return Err(NoHeaderColumns);
    }
    rootTitle := parsed.(toIndex := MaxToIndex(parsed.subTitles));
    HeaderRootOf(sheet, parse, parsed);
    r := Ok(rootTitle);
  }

  // ---------------------------------------------------------------------------
  // Lemmas.

  /** Once a column fails to parse, every wider range fails with the same error. */
  lemma {:induction false} RowChildrenErrPersists(sheet: Sheet, parse: NameParser, row: int, from: int, upTo: int, upTo': int)
    requires upTo <= upTo'
    requires RowChildren(sheet, parse, row, from, upTo).Err?
    ensures RowChildren(sheet, parse, row, from, upTo') == RowChildren(sheet, parse, row, from, upTo)
    decreases upTo' - upTo
  {
    if upTo < upTo' {
      RowChildrenErrPersists(sheet, parse, row, from, upTo, upTo' - 1);
    }
  }

  /**
   * The first malformed header cell, left to right, in the node's own column range
   * makes the whole node fail with that cell's error.
   */
  lemma GrowFailsInRow(sheet: Sheet, parse: NameParser, rowIndex: int, maxRowIndex: int, title: Title, i: int)
    requires title.fromIndex <= i <= title.toIndex
    requires RowChildren(sheet, parse, rowIndex, title.fromIndex, i).Ok?
    requires !Blank(sheet, rowIndex, i) && parse(sheet.text(rowIndex, i + 1).value).None?
    ensures Grow(sheet, parse, rowIndex, maxRowIndex, title) == Err(TitleFormat(rowIndex, i + 1))
  {
    RowChildrenFailsAt(sheet, parse, rowIndex, title.fromIndex, i);
    RowChildrenErrPersists(sheet, parse, rowIndex, title.fromIndex, i + 1, title.toIndex + 1);
  }

  /** The first malformed cell of a row is the row's error. */
  lemma RowChildrenFailsAt(sheet: Sheet, parse: NameParser, row: int, from: int, i: int)
    requires from <= i
    requires RowChildren(sheet, parse, row, from, i).Ok?
    requires !Blank(sheet, row, i) && parse(sheet.text(row, i + 1).value).None?
    ensures RowChildren(sheet, parse, row, from, i + 1) == Err(TitleFormat(row, i + 1))
  {
    assert NewSubTitle(sheet, parse, row, i) == Err(TitleFormat(row, i + 1));
  }

  /** When every child grows, the node grows into the node with the grown children. */
  lemma GrowFromChildren(sheet: Sheet, parse: NameParser, rowIndex: int, maxRowIndex: int, title: Title, grown: seq<Title>)
    requires rowIndex < maxRowIndex
    requires RowChildren(sheet, parse, rowIndex, title.fromIndex, title.toIndex + 1).Ok?
    requires GrowAll(sheet, parse, rowIndex + 1, maxRowIndex,
                     title.subTitles + RowChildren(sheet, parse, rowIndex, title.fromIndex, title.toIndex + 1).value) == Ok(grown)
    ensures Grow(sheet, parse, rowIndex, maxRowIndex, title) == Ok(title.(subTitles := grown))
  {
  }

  /** A child that fails to grow makes its parent fail with the same error. */
  lemma GrowFailsBelow(sheet: Sheet, parse: NameParser, rowIndex: int, maxRowIndex: int, title: Title,
                       subTitles: seq<Title>, k: nat)
    requires rowIndex < maxRowIndex && k <= |subTitles|
    requires RowChildren(sheet, parse, rowIndex, title.fromIndex, title.toIndex + 1).Ok?
    requires subTitles == title.subTitles + RowChildren(sheet, parse, rowIndex, title.fromIndex, title.toIndex + 1).value
    requires GrowAll(sheet, parse, rowIndex + 1, maxRowIndex, subTitles[..k]).Err?
    ensures Grow(sheet, parse, rowIndex, maxRowIndex, title)
         == Err(GrowAll(sheet, parse, rowIndex + 1, maxRowIndex, subTitles[..k]).error)
  {
    GrowAllErrPersists(sheet, parse, rowIndex + 1, maxRowIndex, subTitles, k);
  }

  /** Once a prefix fails to grow, the whole sequence fails with the same error. */
  lemma {:induction false} GrowAllErrPersists(sheet: Sheet, parse: NameParser, rowIndex: int, maxRowIndex: int, ts: seq<Title>, k: nat)
    requires k <= |ts|
    requires GrowAll(sheet, parse, rowIndex, maxRowIndex, ts[..k]).Err?
    ensures GrowAll(sheet, parse, rowIndex, maxRowIndex, ts) == GrowAll(sheet, parse, rowIndex, maxRowIndex, ts[..k])
    decreases |ts| - k
  {
    if k < |ts| {
      assert ts[..k + 1][..k] == ts[..k];
      GrowAllErrPersists(sheet, parse, rowIndex, maxRowIndex, ts, k + 1);
    } else {
      assert ts[..k] == ts;
    }
  }

  /**
   * `cs` are the children one header row opens over the columns [from, upTo): exactly
   * one per non-blank column, in strictly increasing column order, each labelled by its
   * own cell and childless.
   */
  predicate RowShaped(sheet: Sheet, parse: NameParser, row: int, from: int, upTo: int, cs: seq<Title>) {
    && (forall k :: 0 <= k < |cs| ==>
          from <= cs[k].fromIndex < upTo && Labelled(sheet, parse, row, cs[k]) && cs[k].subTitles == [])
    && (forall k, l :: 0 <= k < l < |cs| ==> cs[k].fromIndex < cs[l].fromIndex)
    && (forall j :: from <= j < upTo && !Blank(sheet, row, j) ==> exists k :: 0 <= k < |cs| && cs[k].fromIndex == j)
  }

  /** The children a header row opens are exactly its non-blank cells, in order. */
  lemma {:induction false} RowChildrenShape(sheet: Sheet, parse: NameParser, row: int, from: int, upTo: int)
    requires RowChildren(sheet, parse, row, from, upTo).Ok?
    ensures RowShaped(sheet, parse, row, from, upTo, RowChildren(sheet, parse, row, from, upTo).value)
    decreases upTo - from
  {
    if upTo > from {
      RowChildrenShape(sheet, parse, row, from, upTo - 1);
      var cs := RowChildren(sheet, parse, row, from, upTo - 1).value;
      if Blank(sheet, row, upTo - 1) {
        RowShapedSkip(sheet, parse, row, from, upTo, cs);
      } else {
        var c := NewSubTitle(sheet, parse, row, upTo - 1).value;
        RowShapedAppend(sheet, parse, row, from, upTo, cs, c);
      }
    }
  }

  /** A blank last column adds no child and leaves the row shaped. */
  lemma RowShapedSkip(sheet: Sheet, parse: NameParser, row: int, from: int, upTo: int, cs: seq<Title>)
    requires from < upTo && Blank(sheet, row, upTo - 1)
    requires RowShaped(sheet, parse, row, from, upTo - 1, cs)
    ensures RowShaped(sheet, parse, row, from, upTo, cs)
  {
  }

  /** The child a non-blank last column opens, appended, keeps the row shaped. */
  lemma RowShapedAppend(sheet: Sheet, parse: NameParser, row: int, from: int, upTo: int, cs: seq<Title>, c: Title)
    requires from < upTo && !Blank(sheet, row, upTo - 1)
    requires NewSubTitle(sheet, parse, row, upTo - 1) == Ok(c)
    requires RowShaped(sheet, parse, row, from, upTo - 1, cs)
    ensures RowShaped(sheet, parse, row, from, upTo, cs + [c])
  {
    var cs' := cs + [c];
    forall j | from <= j < upTo && !Blank(sheet, row, j)
      ensures exists k :: 0 <= k < |cs'| && cs'[k].fromIndex == j
    {
      if j == upTo - 1 {
        assert cs'[|cs|].fromIndex == j;
      } else {
        var k :| 0 <= k < |cs| && cs[k].fromIndex == j;
        assert cs'[k] == cs[k];
      }
    }
  }

  /** A row whose cells over [from, upTo) are all blank opens no child. */
  lemma {:induction false} RowChildrenAllBlank(sheet: Sheet, parse: NameParser, row: int, from: int, upTo: int)
    requires forall j :: from <= j < upTo ==> Blank(sheet, row, j)
    ensures RowChildren(sheet, parse, row, from, upTo) == Ok([])
    decreases upTo - from
  {
    if upTo > from {
      RowChildrenAllBlank(sheet, parse, row, from, upTo - 1);
    }
  }

  /** A row fails to parse exactly when one of its non-blank cells has malformed tags. */
  lemma {:induction false} RowChildrenErr(sheet: Sheet, parse: NameParser, row: int, from: int, upTo: int)
    ensures RowChildren(sheet, parse, row, from, upTo).Err? <==>
      exists j :: from <= j < upTo && !Blank(sheet, row, j) && parse(sheet.text(row, j + 1).value).None?
    decreases upTo - from
  {
    if upTo > from {
      RowChildrenErr(sheet, parse, row, from, upTo - 1);
      if RowChildren(sheet, parse, row, from, upTo - 1).Err? {
        var j :| from <= j < upTo - 1 && !Blank(sheet, row, j) && parse(sheet.text(row, j + 1).value).None?;
        assert from <= j < upTo;
      }
    }
  }

  /** The children a row opens, each given a shaped subtree, are shaped. */
  lemma ShapedFromRow(sheet: Sheet, parse: NameParser, row: int, maxRow: int, from: int, to: int,
                      cs: seq<Title>, gs: seq<Title>)
    requires RowChildren(sheet, parse, row, from, to + 1) == Ok(cs)
    requires row < maxRow ==> ChildrenGrown(sheet, parse, row + 1, maxRow, cs, gs)
    requires row >= maxRow ==> gs == cs
    ensures Shaped(sheet, parse, row, maxRow, from, to, gs)
  {
    RowChildrenShape(sheet, parse, row, from, to + 1);
    RowShapedRelabel(sheet, parse, row, from, to, cs, gs);
  }

  /**
   * `gs` are the nodes `cs` grown from `row` on: each keeps its label and gets the
   * shaped subtree below it.
   */
  predicate ChildrenGrown(sheet: Sheet, parse: NameParser, row: int, maxRow: int, cs: seq<Title>, gs: seq<Title>) {
    && |gs| == |cs|
    && forall k :: 0 <= k < |cs| ==>
         && gs[k] == cs[k].(subTitles := gs[k].subTitles)
         && Shaped(sheet, parse, row, maxRow, cs[k].fromIndex, cs[k].toIndex, gs[k].subTitles)
  }

  /** Giving the children of a shaped row subtrees keeps their labels, order and coverage. */
  lemma RowShapedRelabel(sheet: Sheet, parse: NameParser, row: int, from: int, to: int, cs: seq<Title>, gs: seq<Title>)
    requires RowShaped(sheet, parse, row, from, to + 1, cs)
    requires |gs| == |cs| && forall k :: 0 <= k < |cs| ==> gs[k] == cs[k].(subTitles := gs[k].subTitles)
    ensures forall k :: 0 <= k < |gs| ==> from <= gs[k].fromIndex <= to && Labelled(sheet, parse, row, gs[k])
    ensures forall k, l :: 0 <= k < l < |gs| ==> gs[k].fromIndex < gs[l].fromIndex
    ensures forall j :: from <= j <= to && !Blank(sheet, row, j) ==> exists k :: 0 <= k < |gs| && gs[k].fromIndex == j
  {
    forall j | from <= j <= to && !Blank(sheet, row, j)
      ensures exists k :: 0 <= k < |gs| && gs[k].fromIndex == j
    {
      var k :| 0 <= k < |cs| && cs[k].fromIndex == j;
      assert gs[k].fromIndex == j;
    }
    forall k | 0 <= k < |gs|
      ensures from <= gs[k].fromIndex <= to && Labelled(sheet, parse, row, gs[k])
    {
      assert Labelled(sheet, parse, row, cs[k]);
    }
  }

  /** Growing a childless node gives it exactly the shaped subtree below it. */
  lemma {:induction false} GrowShaped(sheet: Sheet, parse: NameParser, rowIndex: int, maxRowIndex: int, title: Title)
    requires title.subTitles == []
    requires Grow(sheet, parse, rowIndex, maxRowIndex, title).Ok?
    ensures Shaped(sheet, parse, rowIndex, maxRowIndex, title.fromIndex, title.toIndex,
                   Grow(sheet, parse, rowIndex, maxRowIndex, title).value.subTitles)
    decreases maxRowIndex - rowIndex, 0, 1
  {
    if rowIndex < maxRowIndex {
      GrowShapedBelow(sheet, parse, rowIndex, maxRowIndex, title);
    } else {
      GrowOfLeaf(sheet, parse, rowIndex, maxRowIndex, title);
      var cs := RowChildren(sheet, parse, rowIndex, title.fromIndex, title.toIndex + 1).value;
      ShapedFromRow(sheet, parse, rowIndex, maxRowIndex, title.fromIndex, title.toIndex, cs, cs);
    }
  }

  /** GrowShaped for a node above the last header row: its children grow in turn. */
  lemma {:induction false} GrowShapedBelow(sheet: Sheet, parse: NameParser, rowIndex: int, maxRowIndex: int, title: Title)
    requires title.subTitles == [] && rowIndex < maxRowIndex
    requires Grow(sheet, parse, rowIndex, maxRowIndex, title).Ok?
    ensures Shaped(sheet, parse, rowIndex, maxRowIndex, title.fromIndex, title.toIndex,
                   Grow(sheet, parse, rowIndex, maxRowIndex, title).value.subTitles)
    decreases maxRowIndex - rowIndex, 0, 0
  {
    var from, to := title.fromIndex, title.toIndex;
    var cs := GrowOfLeafBelow(sheet, parse, rowIndex, maxRowIndex, title);
    var gs := Grow(sheet, parse, rowIndex, maxRowIndex, title).value.subTitles;
    GrowAllShaped(sheet, parse, rowIndex + 1, maxRowIndex, cs);
    ShapedFromRow(sheet, parse, rowIndex, maxRowIndex, from, to, cs, gs);
  }

  /**
   * Above the last header row, a childless node's children are its row's childless
   * children, each grown from the next row on.
   */
  lemma GrowOfLeafBelow(sheet: Sheet, parse: NameParser, rowIndex: int, maxRowIndex: int, title: Title)
    returns (cs: seq<Title>)
    requires title.subTitles == [] && rowIndex < maxRowIndex
    requires Grow(sheet, parse, rowIndex, maxRowIndex, title).Ok?
    ensures RowChildren(sheet, parse, rowIndex, title.fromIndex, title.toIndex + 1) == Ok(cs)
    ensures forall k :: 0 <= k < |cs| ==> cs[k].subTitles == []
    ensures GrowAll(sheet, parse, rowIndex + 1, maxRowIndex, cs).Ok?
    ensures Grow(sheet, parse, rowIndex, maxRowIndex, title).value.subTitles
            == GrowAll(sheet, parse, rowIndex + 1, maxRowIndex, cs).value
  {
    GrowOfLeaf(sheet, parse, rowIndex, maxRowIndex, title);
    cs := RowChildren(sheet, parse, rowIndex, title.fromIndex, title.toIndex + 1).value;
    RowChildrenShape(sheet, parse, rowIndex, title.fromIndex, title.toIndex + 1);
  }

  /** A childless node grows into its row's children, each grown from the next row on. */
  lemma GrowOfLeaf(sheet: Sheet, parse: NameParser, rowIndex: int, maxRowIndex: int, title: Title)
    requires title.subTitles == []
    requires Grow(sheet, parse, rowIndex, maxRowIndex, title).Ok?
    ensures RowChildren(sheet, parse, rowIndex, title.fromIndex, title.toIndex + 1).Ok?
    ensures var cs := RowChildren(sheet, parse, rowIndex, title.fromIndex, title.toIndex + 1).value;
      var g := Grow(sheet, parse, rowIndex, maxRowIndex, title).value;
      if rowIndex < maxRowIndex then
        GrowAll(sheet, parse, rowIndex + 1, maxRowIndex, cs).Ok?
        && g.subTitles == GrowAll(sheet, parse, rowIndex + 1, maxRowIndex, cs).value
      else g.subTitles == cs
  {
    var cs := RowChildren(sheet, parse, rowIndex, title.fromIndex, title.toIndex + 1).value;
    assert title.subTitles + cs == cs;
  }

  /** Growing childless nodes keeps each one's label and gives each its shaped subtree. */
  lemma {:induction false} GrowAllShaped(sheet: Sheet, parse: NameParser, rowIndex: int, maxRowIndex: int, ts: seq<Title>)
    requires forall k :: 0 <= k < |ts| ==> ts[k].subTitles == []
    requires GrowAll(sheet, parse, rowIndex, maxRowIndex, ts).Ok?
    ensures ChildrenGrown(sheet, parse, rowIndex, maxRowIndex, ts, GrowAll(sheet, parse, rowIndex, maxRowIndex, ts).value)
    decreases maxRowIndex - rowIndex, 1, |ts|
  {
    if ts != [] {
      var n := |ts| - 1;
      var init := ts[..n];
      var gsInit := GrowAll(sheet, parse, rowIndex, maxRowIndex, init).value;
      var g := Grow(sheet, parse, rowIndex, maxRowIndex, ts[n]).value;
      var gs := GrowAll(sheet, parse, rowIndex, maxRowIndex, ts).value;
      assert gs == gsInit + [g];
      assert gs[..n] == gsInit && gs[n] == g;
      GrowAllShaped(sheet, parse, rowIndex, maxRowIndex, init);
      GrowShaped(sheet, parse, rowIndex, maxRowIndex, ts[n]);
      ChildrenGrownSnoc(sheet, parse, rowIndex, maxRowIndex, ts, gs);
    }
  }

  /** ChildrenGrown extends by one node that keeps its label and gets its shaped subtree. */
  lemma ChildrenGrownSnoc(sheet: Sheet, parse: NameParser, row: int, maxRow: int, cs: seq<Title>, gs: seq<Title>)
    requires |cs| > 0 && |gs| == |cs|
    requires ChildrenGrown(sheet, parse, row, maxRow, cs[..|cs| - 1], gs[..|cs| - 1])
    requires var n := |cs| - 1;
      && gs[n] == cs[n].(subTitles := gs[n].subTitles)
      && Shaped(sheet, parse, row, maxRow, cs[n].fromIndex, cs[n].toIndex, gs[n].subTitles)
    ensures ChildrenGrown(sheet, parse, row, maxRow, cs, gs)
  {
    var n := |cs| - 1;
    forall k | 0 <= k < n
      ensures gs[k] == cs[k].(subTitles := gs[k].subTitles)
      ensures Shaped(sheet, parse, row, maxRow, cs[k].fromIndex, cs[k].toIndex, gs[k].subTitles)
    {
      assert cs[..n][k] == cs[k] && gs[..n][k] == gs[k];
    }
  }

  /** A shaped subtree rooted at `row` is no deeper than the rows left below it. */
  lemma {:induction false} ShapedDepth(sheet: Sheet, parse: NameParser, row: int, maxRow: int, from: int, to: int, cs: seq<Title>)
    requires row <= maxRow
    requires Shaped(sheet, parse, row, maxRow, from, to, cs)
    ensures forall k :: 0 <= k < |cs| ==> DepthAtMost(cs[k], maxRow - row)
    decreases maxRow - row
  {
    forall k | 0 <= k < |cs|
      ensures DepthAtMost(cs[k], maxRow - row)
    {
      var c := cs[k];
      if row < maxRow {
        ShapedDepth(sheet, parse, row + 1, maxRow, c.fromIndex, c.toIndex, c.subTitles);
        DepthFromChildren(c, maxRow - row);
      } else {
        assert c.subTitles == [];
      }
    }
  }

  /**
   * With merge counts of at least one, every node of a shaped subtree spans at least
   * one column, a merged cell's node ending count - 1 columns after it starts.
   */
  lemma {:induction false} ShapedSpans(sheet: Sheet, parse: NameParser, row: int, maxRow: int, from: int, to: int, cs: seq<Title>)
    requires forall r, c :: sheet.mergeCells(r, c) ==> sheet.mergeAreaCount(r, c) >= 1
    requires Shaped(sheet, parse, row, maxRow, from, to, cs)
    ensures forall k :: 0 <= k < |cs| ==> SpansColumns(cs[k])
    ensures forall k :: 0 <= k < |cs| ==>
      cs[k].toIndex == if sheet.mergeCells(row, cs[k].fromIndex + 1)
                       then cs[k].fromIndex + sheet.mergeAreaCount(row, cs[k].fromIndex + 1) - 1
                       else cs[k].fromIndex
    decreases maxRow - row
  {
    forall k | 0 <= k < |cs|
      ensures SpansColumns(cs[k])
    {
      var c := cs[k];
      assert Labelled(sheet, parse, row, c);
      if row < maxRow {
        ShapedSpans(sheet, parse, row + 1, maxRow, c.fromIndex, c.toIndex, c.subTitles);
      }
    }
  }

  /**
   * Siblings never overlap when, right of each non-blank merged cell of the row (a
   * merge's anchor), the count - 1 cells are blank: each child ends before the next
   * one starts. That holds for merges one row high, whose covered cells Excel reports
   * empty; it can fail for taller merges (see TallMergeOverlaps).
   */
  lemma ShapedSiblingsDisjoint(sheet: Sheet, parse: NameParser, row: int, maxRow: int, from: int, to: int, cs: seq<Title>)
    requires MergedCellsBlank(sheet, row)
    requires Shaped(sheet, parse, row, maxRow, from, to, cs)
    ensures forall k :: 0 <= k < |cs| - 1 ==> cs[k].toIndex < cs[k + 1].fromIndex
  {
    forall k | 0 <= k < |cs| - 1
      ensures cs[k].toIndex < cs[k + 1].fromIndex
    {
      assert Labelled(sheet, parse, row, cs[k]) && Labelled(sheet, parse, row, cs[k + 1]);
    }
  }

  /**
   * A header whose first column is merged over two rows: A2:A3 holds "id" and B2:C2
   * holds "pos", with "x" and "y" below it in B3 and C3. Every other cell is empty;
   * every cell of a merge is marked merged with the merge's cell count, 2.
   */
  function TallMergeSheet(): Sheet {
    Sheet(3,
      (r: int, c: int) =>
        if r == 2 && c == 1 then Some("id")
        else if r == 2 && c == 2 then Some("pos")
        else if r == 3 && c == 2 then Some("x")
        else if r == 3 && c == 3 then Some("y")
        else None,
      (r: int, c: int) => (r == 2 && 1 <= c <= 3) || (r == 3 && c == 1),
      (r: int, c: int) => if (r == 2 && 1 <= c <= 3) || (r == 3 && c == 1) then 2 else 1)
  }

  /** A name parser that accepts every text as a name without tags. */
  function PlainNames(): NameParser {
    (s: string) => Some(NameTags(s, map[]))
  }

  /**
   * MergeArea.Count counts the cells of a merge, rows times columns, so a cell merged
   * over two rows spans two columns: "id" in A2:A3 ends in column B, which "pos"
   * starts, although the covered cells A3 and C2 are empty.
   */
  lemma TallMergeOverlaps()
    ensures TallMergeSheet().text(3, 1).None? && TallMergeSheet().text(2, 3).None?
    ensures !MergedCellsBlank(TallMergeSheet(), 2)
    ensures RowChildren(TallMergeSheet(), PlainNames(), 2, 0, 3)
         == Ok([Title("id", 0, 1, map[], false, []), Title("pos", 1, 2, map[], false, [])])
  {
    var sheet, parse := TallMergeSheet(), PlainNames();
    assert sheet.text(2, 1).value[0] == 'i' && sheet.text(2, 2).value[0] == 'p';
    assert sheet.mergeCells(2, 1) && !IsNullOrWhiteSpace(sheet.text(2, 1))
      && 1 < 2 < 1 + sheet.mergeAreaCount(2, 1) && !IsNullOrWhiteSpace(sheet.text(2, 2));
    assert !Blank(sheet, 2, 0) && !Blank(sheet, 2, 1) && Blank(sheet, 2, 2);
    assert MergeEnd(sheet, 2, 0) == 1 && MergeEnd(sheet, 2, 1) == 2;
    assert NewSubTitle(sheet, parse, 2, 0) == Ok(Title("id", 0, 1, map[], false, []));
    assert NewSubTitle(sheet, parse, 2, 1) == Ok(Title("pos", 1, 2, map[], false, []));
    assert RowChildren(sheet, parse, 2, 0, 0) == Ok([]);
    var id := Title("id", 0, 1, map[], false, []);
    assert [] + [id] == [id];
    assert RowChildren(sheet, parse, 2, 0, 1) == Ok([] + [id]);
    var pos := Title("pos", 1, 2, map[], false, []);
    assert [id] + [pos] == [id, pos];
    assert RowChildren(sheet, parse, 2, 0, 2) == Ok([id] + [pos]);
  }

  /**
   * A one-row merge followed by another header: B2:C2 holds "pos" and D2 holds "z".
   * Every other cell is empty; B2 and C2 are marked merged with count 2.
   */
  function WideMergeSheet(): Sheet {
    Sheet(4,
      (r: int, c: int) =>
        if r == 2 && c == 2 then Some("pos")
        else if r == 2 && c == 4 then Some("z")
        else None,
      (r: int, c: int) => r == 2 && (c == 2 || c == 3),
      (r: int, c: int) => if r == 2 && (c == 2 || c == 3) then 2 else 1)
  }

  /**
   * On a sheet of one-row merges, MergedCellsBlank holds even though the covered cell
   * C2 is marked merged, and row 2 opens the disjoint "pos" [1,2] and "z" [3,3].
   */
  lemma WideMergeDisjoint()
    ensures MergedCellsBlank(WideMergeSheet(), 2)
    ensures RowChildren(WideMergeSheet(), PlainNames(), 2, 0, 4)
         == Ok([Title("pos", 1, 2, map[], false, []), Title("z", 3, 3, map[], false, [])])
  {
    var sheet, parse := WideMergeSheet(), PlainNames();
    assert sheet.text(2, 2).value[0] == 'p' && sheet.text(2, 4).value[0] == 'z';
    assert Blank(sheet, 2, 0) && !Blank(sheet, 2, 1) && Blank(sheet, 2, 2) && !Blank(sheet, 2, 3);
    assert MergeEnd(sheet, 2, 1) == 2 && MergeEnd(sheet, 2, 3) == 3;
    var pos, z := Title("pos", 1, 2, map[], false, []), Title("z", 3, 3, map[], false, []);
    assert NewSubTitle(sheet, parse, 2, 1) == Ok(pos);
    assert NewSubTitle(sheet, parse, 2, 3) == Ok(z);
    assert RowChildren(sheet, parse, 2, 0, 0) == Ok([]);
    assert RowChildren(sheet, parse, 2, 0, 1) == Ok([]);
    assert [] + [pos] == [pos];
    assert RowChildren(sheet, parse, 2, 0, 2) == Ok([] + [pos]);
    assert RowChildren(sheet, parse, 2, 0, 3) == Ok([pos]);
    assert [pos] + [z] == [pos, z];
    assert RowChildren(sheet, parse, 2, 0, 4) == Ok([pos] + [z]);
  }

  /** The tree ParseTitles returns is the header root. */
  lemma TitlesRoot(sheet: Sheet, parse: NameParser)
    requires Titles(sheet, parse).Ok?
    ensures IsHeaderRoot(Titles(sheet, parse).value)
  {
    var grown := Grow(sheet, parse, 2, HeaderDepth(sheet) + 1, InitialRoot(sheet));
    assert grown.Ok?;
    HeaderRootOf(sheet, parse, grown.value);
  }

  /**
   * The children of the tree ParseTitles returns are exactly the shaped header from
   * row 2 over all used columns.
   */
  lemma TitlesShape(sheet: Sheet, parse: NameParser)
    requires Titles(sheet, parse).Ok?
    ensures Shaped(sheet, parse, 2, HeaderDepth(sheet) + 1, 0, sheet.usedColumns - 1, Titles(sheet, parse).value.subTitles)
  {
    TitlesChildren(sheet, parse);
    GrowShaped(sheet, parse, 2, HeaderDepth(sheet) + 1, InitialRoot(sheet));
  }

  /** The children of the tree ParseTitles returns are those of the grown initial root. */
  lemma TitlesChildren(sheet: Sheet, parse: NameParser)
    requires Titles(sheet, parse).Ok?
    ensures InitialRoot(sheet).subTitles == []
    ensures InitialRoot(sheet).fromIndex == 0 && InitialRoot(sheet).toIndex == sheet.usedColumns - 1
    ensures Grow(sheet, parse, 2, HeaderDepth(sheet) + 1, InitialRoot(sheet)).Ok?
    ensures Titles(sheet, parse).value.subTitles
            == Grow(sheet, parse, 2, HeaderDepth(sheet) + 1, InitialRoot(sheet)).value.subTitles
  {
  }

  /** The tree ParseTitles returns is no deeper than the probed header depth. */
  lemma TitlesDepth(sheet: Sheet, parse: NameParser)
    requires Titles(sheet, parse).Ok?
    requires sheet.mergeCells(2, 1) ==> sheet.mergeAreaCount(2, 1) >= 1
    ensures DepthAtMost(Titles(sheet, parse).value, HeaderDepth(sheet))
  {
    var d := HeaderDepth(sheet);
    TitlesShape(sheet, parse);
    var t := Titles(sheet, parse).value;
    ShapedDepth(sheet, parse, 2, d + 1, 0, sheet.usedColumns - 1, t.subTitles);
    DepthFromChildren(t, d);
  }

  /** A node whose children are at most n - 1 deep is at most n deep, for n >= 1. */
  lemma DepthFromChildren(t: Title, n: int)
    requires n >= 1
    requires forall k :: 0 <= k < |t.subTitles| ==> DepthAtMost(t.subTitles[k], n - 1)
    ensures DepthAtMost(t, n)
  {
  }

  /** ParseTitles fails on Max of an empty list exactly when every cell of row 2 is blank. */
  lemma TitlesNoHeader(sheet: Sheet, parse: NameParser)
    ensures Titles(sheet, parse) == Err(NoHeaderColumns) <==>
      forall j :: 0 <= j < sheet.usedColumns ==> Blank(sheet, 2, j)
  {
    var maxRow := HeaderDepth(sheet) + 1;
    var root := InitialRoot(sheet);
    var grown := Grow(sheet, parse, 2, maxRow, root);
    if Titles(sheet, parse) == Err(NoHeaderColumns) {
      assert grown.Ok? && grown.value.subTitles == [];
      GrowShaped(sheet, parse, 2, maxRow, root);
    }
    if forall j :: 0 <= j < sheet.usedColumns ==> Blank(sheet, 2, j) {
      RowChildrenAllBlank(sheet, parse, 2, 0, sheet.usedColumns);
      assert root.subTitles + [] == [];
      if 2 < maxRow {
        assert GrowAll(sheet, parse, 3, maxRow, []) == Ok([]);
      }
      assert grown == Ok(root);
    }
  }
}
