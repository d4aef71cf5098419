/** What every snapshot of every result has in common. */
module SnapshotTheorems {
  import opened Limits
  import opened Wrappers
  import opened CellRetention
  import opened Cells
  import opened RetainedCells
  import opened ResultSnapshot
  import opened Numbers
  import Json

  // ---- the totals of a grid of cells ----

  function RowBytes(row: seq<Cell>): nat {
    if row == [] then 0 else RowBytes(row[..|row| - 1]) + CellBytes(row[|row| - 1])
  }

  function GridBytes(rows: seq<seq<Cell>>): nat {
    if rows == [] then 0 else GridBytes(rows[..|rows| - 1]) + RowBytes(rows[|rows| - 1])
  }

  // ---- rows and cells one by one ----

  lemma {:induction false} RowTotal(row: seq<Cell>, n: nat, used: nat, policy: Policy, index: nat,
                                    cells: seq<RetainedCell>)
    requires n <= |row| && used <= MAX_RESULT_BYTES && RowKept(row, n, used, policy, index) == Some(cells)
    ensures |cells| == n && used + Sum(cells) <= MAX_RESULT_BYTES
  {
    hide NextCell;
    if n > 0 {
      var before := RowKept(row, n - 1, used, policy, index).value;
      RowTotal(row, n - 1, used, policy, index, before);
      NextCellFits(row[n - 1], used + Sum(before), policy, index, n - 1);
      assert cells[..n - 1] == before;
    }
  }

  /** Each cell of a kept row is the image of the cell of the source, at the space its predecessors left. */
  lemma {:induction false} RowCellAt(row: seq<Cell>, n: nat, used: nat, policy: Policy, index: nat,
                                     cells: seq<RetainedCell>, j: nat)
    requires n <= |row| && j < n && RowKept(row, n, used, policy, index) == Some(cells)
    ensures |cells| == n && NextCell(row[j], used + Sum(cells[..j]), policy, index, j) == Some(cells[j])
  {
    hide NextCell, Sum;
    var before := RowKept(row, n - 1, used, policy, index).value;
    RowLength(row, n - 1, used, policy, index);
    assert cells[..n - 1] == before;
    if j < n - 1 {
      RowCellAt(row, n - 1, used, policy, index, before, j);
      assert cells[..j] == before[..j] && cells[j] == before[j];
    }
  }

  lemma {:induction false} RowLength(row: seq<Cell>, n: nat, used: nat, policy: Policy, index: nat)
    requires n <= |row| && RowKept(row, n, used, policy, index).Some?
    ensures |RowKept(row, n, used, policy, index).value| == n
  {
    hide NextCell;
    if n > 0 {
      RowLength(row, n - 1, used, policy, index);
    }
  }

  lemma NextCellFits(cell: Cell, used: nat, policy: Policy, row: nat, column: nat)
    ensures NextCell(cell, used, policy, row, column).Some? ==>
              used + NextCell(cell, used, policy, row, column).value.retainedBytes <= MAX_RESULT_BYTES
  {
    hide Kept;
  }

  lemma NextRowFits(row: seq<Cell>, width: nat, bytes: nat, cells: nat, policy: Policy, index: nat)
    requires NextRow(row, width, bytes, cells, policy, index).Some?
    ensures var next := NextRow(row, width, bytes, cells, policy, index).value;
            && |next| == width <= |row| && bytes + Sum(next) <= MAX_RESULT_BYTES && cells + width <= policy.CellLimit()
            && RowKept(row, width, bytes, policy, index) == Some(next)
  {
    RowTotal(row, width, bytes, policy, index, RowKept(row, width, bytes, policy, index).value);
    hide RowKept, Sum;
  }

  lemma Rectangle(n: nat, width: nat)
    requires n > 0
    ensures (n - 1) * width + width == n * width
  {
  }

  /** The rows kept have the full width and stay within the limits on bytes and cells. */
  lemma {:induction false} RowsTotal(rows: seq<seq<Cell>>, n: nat, width: nat, columnBytes: nat, policy: Policy,
                                     kept: seq<seq<RetainedCell>>)
    requires n <= |rows| && columnBytes <= MAX_RESULT_BYTES
    requires RowsKept(rows, n, width, columnBytes, policy) == Some(kept)
    ensures |kept| == n && columnBytes + TotalSum(kept) <= MAX_RESULT_BYTES
    ensures CellCount(kept) == n * width <= policy.CellLimit()
  {
    hide NextRow, Sum, TotalSum, CellCount, RowsOf, AllTruncations, RowsNotices, RowNotices;
    if n == 0 {
      NoRows();
    } else {
      var before := RowsKept(rows, n - 1, width, columnBytes, policy).value;
      RowsTotal(rows, n - 1, width, columnBytes, policy, before);
      var bytes, cells := columnBytes + TotalSum(before), CellCount(before);
      NextRowFits(rows[n - 1], width, bytes, cells, policy, n - 1);
      OneMoreRow(before, NextRow(rows[n - 1], width, bytes, cells, policy, n - 1).value);
      Rectangle(n, width);
    }
  }

  /** Each row begins where the rows before it end. */
  lemma {:induction false} RowAt(rows: seq<seq<Cell>>, n: nat, width: nat, columnBytes: nat, policy: Policy,
                                 kept: seq<seq<RetainedCell>>, i: nat)
    requires n <= |rows| && columnBytes <= MAX_RESULT_BYTES && i < n
    requires RowsKept(rows, n, width, columnBytes, policy) == Some(kept)
    ensures |kept| == n && columnBytes + TotalSum(kept[..i]) <= MAX_RESULT_BYTES && width <= |rows[i]|
    ensures |kept[i]| == width
    ensures RowKept(rows[i], width, columnBytes + TotalSum(kept[..i]), policy, i) == Some(kept[i])
  {
    hide NextRow, RowKept, Sum, TotalSum, CellCount;
    var before := RowsKept(rows, n - 1, width, columnBytes, policy).value;
    RowsTotal(rows, n - 1, width, columnBytes, policy, before);
    assert kept[..n - 1] == before;
    if i < n - 1 {
      RowAt(rows, n - 1, width, columnBytes, policy, before, i);
      assert kept[..i] == before[..i] && kept[i] == before[i];
    } else {
      NextRowFits(rows[n - 1], width, columnBytes + TotalSum(before), CellCount(before), policy, n - 1);
    }
  }

  /** One kept cell of a snapshot: it is the image of the cell at the same place of the source. */
  ghost predicate IsImage(source: Cell, used: nat, policy: Policy, row: nat, column: nat, cell: RetainedCell) {
    && used <= MAX_RESULT_BYTES
    && Kept(source, Cap(policy, used), policy.MaxDepth(), row, column) == Some(cell)
    && KeptRight(source, Cap(policy, used), row, column, cell)
  }

  lemma NextCellIsImage(source: Cell, used: nat, policy: Policy, row: nat, column: nat, cell: RetainedCell)
    requires NextCell(source, used, policy, row, column) == Some(cell)
    ensures IsImage(source, used, policy, row, column, cell)
  {
    KeptMeaning(source, Cap(policy, used), policy.MaxDepth(), row, column);
    hide Kept, KeptRight;
  }

  lemma ImageAt(rows: seq<seq<Cell>>, n: nat, width: nat, columnBytes: nat, policy: Policy,
                kept: seq<seq<RetainedCell>>, i: nat, j: nat)
    requires n <= |rows| && columnBytes <= MAX_RESULT_BYTES && i < n && j < width
    requires RowsKept(rows, n, width, columnBytes, policy) == Some(kept)
    ensures |kept| == n && |kept[i]| == width <= |rows[i]|
    ensures IsImage(rows[i][j], columnBytes + TotalSum(kept[..i]) + Sum(kept[i][..j]), policy, i, j, kept[i][j])
  {
    hide RowsKept, RowKept, NextCell, Sum, TotalSum, IsImage;
    RowAt(rows, n, width, columnBytes, policy, kept, i);
    var used := columnBytes + TotalSum(kept[..i]);
    RowCellAt(rows[i], width, used, policy, i, kept[i], j);
    NextCellIsImage(rows[i][j], used + Sum(kept[i][..j]), policy, i, j, kept[i][j]);
  }

  /** What a snapshot says of its rows, and nothing else of it. */
  lemma RowsOfSnapshot(source: QueryResult, policy: Policy, s: Snapshot, kept: seq<seq<RetainedCell>>)
    requires SnapshotOf(source, policy, s, kept)
    ensures |kept| <= |source.rows| && |kept| <= policy.RowLimit() && TotalColumnBytes(s.columns) <= MAX_RESULT_BYTES
    ensures RowsKept(source.rows, |kept|, |s.columns|, TotalColumnBytes(s.columns), policy) == Some(kept)
    ensures s.rows == RowsOf(kept) && s.cellTruncations == AllTruncations(kept)
    ensures s.retainedBytes == TotalColumnBytes(s.columns) + TotalSum(kept)
  {
    hide RowsKept, NoticesOf, NoticeSet, Distinct, RowsOf, AnyWide, AllTruncations, TotalColumnBytes, TotalSum;
  }

  lemma ImageOf(source: QueryResult, policy: Policy, s: Snapshot, kept: seq<seq<RetainedCell>>, i: nat, j: nat)
    requires SnapshotOf(source, policy, s, kept) && i < |kept| && j < |s.columns|
    ensures |kept| <= |source.rows| && |kept[i]| == |s.columns| <= |source.rows[i]|
    ensures IsImage(source.rows[i][j], TotalColumnBytes(s.columns) + TotalSum(kept[..i]) + Sum(kept[i][..j]),
                    policy, i, j, kept[i][j])
  {
    hide *;
    RowsOfSnapshot(source, policy, s, kept);
    ImageAt(source.rows, |kept|, |s.columns|, TotalColumnBytes(s.columns), policy, kept, i, j);
  }

  // ---- the counts ----

  lemma {:induction false} SumIsRowBytes(cells: seq<RetainedCell>)
    requires forall j | 0 <= j < |cells| :: cells[j].retainedBytes == CellBytes(cells[j].cell)
    ensures Sum(cells) == RowBytes(CellsOf(cells))
  {
    hide CellBytes;
    if cells != [] {
      SumIsRowBytes(cells[..|cells| - 1]);
      assert CellsOf(cells)[..|cells| - 1] == CellsOf(cells[..|cells| - 1]);
    }
  }

  lemma {:induction false} TotalIsGridBytes(rows: seq<seq<RetainedCell>>)
    requires CountsRight(rows)
    ensures TotalSum(rows) == GridBytes(RowsOf(rows))
  {
    hide CellBytes, Sum, RowBytes, CellsOf;
    if rows != [] {
      TotalIsGridBytes(rows[..|rows| - 1]);
      SumIsRowBytes(rows[|rows| - 1]);
      assert RowsOf(rows)[..|rows| - 1] == RowsOf(rows[..|rows| - 1]);
    }
  }

  lemma RowsAreWide(source: QueryResult, policy: Policy, s: Snapshot, kept: seq<seq<RetainedCell>>, i: nat)
    requires SnapshotOf(source, policy, s, kept) && i < |kept|
    ensures |kept| <= |source.rows| && |kept[i]| == |s.columns| <= |source.rows[i]|
  {
    hide *;
    RowsOfSnapshot(source, policy, s, kept);
    RowAt(source.rows, |kept|, |s.columns|, TotalColumnBytes(s.columns), policy, kept, i);
  }

  ghost predicate CountsRight(kept: seq<seq<RetainedCell>>) {
    forall i, j | 0 <= i < |kept| && 0 <= j < |kept[i]| :: kept[i][j].retainedBytes == CellBytes(kept[i][j].cell)
  }

  lemma CountsAreRight(source: QueryResult, policy: Policy, s: Snapshot, kept: seq<seq<RetainedCell>>)
    requires SnapshotOf(source, policy, s, kept)
    ensures CountsRight(kept)
  {
    hide SnapshotOf, CellBytes, Sum, TotalSum, TotalColumnBytes, Kept;
    forall i, j | 0 <= i < |kept| && 0 <= j < |kept[i]|
      ensures kept[i][j].retainedBytes == CellBytes(kept[i][j].cell)
    {
      RowsAreWide(source, policy, s, kept, i);
      ImageOf(source, policy, s, kept, i, j);
    }
  }

  /**
   The byte count of a snapshot is that of its columns and cells and never above the limit; it keeps a prefix
   of the rows, all of the full width, within the limits on rows and cells.
   */
  lemma SnapshotIsBounded(source: QueryResult, policy: Policy, s: Snapshot)
    requires IsSnapshot(source, policy, s)
    ensures s.retainedBytes == TotalColumnBytes(s.columns) + GridBytes(s.rows) <= MAX_RESULT_BYTES
    ensures |s.columns| <= MAX_RESULT_COLUMNS && s.columns <= source.columns
    ensures |s.rows| <= |source.rows| && |s.rows| <= policy.RowLimit() <= MAX_RESULT_ROWS
    ensures |s.rows| * |s.columns| <= policy.CellLimit()
    ensures forall i | 0 <= i < |s.rows| :: |s.rows[i]| == |s.columns| <= |source.rows[i]|
  {
    var kept: seq<seq<RetainedCell>> :| SnapshotOf(source, policy, s, kept);
    hide RowsKept, TotalSum, TotalColumnBytes, GridBytes, NoticesOf, NoticeSet, Distinct, AnyWide, AllTruncations,
         CountsRight;
    RowsOfSnapshot(source, policy, s, kept);
    CountsAreRight(source, policy, s, kept);
    TotalIsGridBytes(kept);
    RowsTotal(source.rows, |kept|, |s.columns|, TotalColumnBytes(s.columns), policy, kept);
    forall i | 0 <= i < |s.rows|
      ensures |s.rows[i]| == |s.columns| <= |source.rows[i]|
    {
      RowsAreWide(source, policy, s, kept, i);
    }
  }

  lemma {:induction false} PrefixTotals(kept: seq<seq<RetainedCell>>, i: nat, j: nat)
    requires i < |kept| && j <= |kept[i]|
    requires CountsRight(kept)
    ensures TotalSum(kept[..i]) == GridBytes(RowsOf(kept)[..i])
    ensures Sum(kept[i][..j]) == RowBytes(RowsOf(kept)[i][..j])
  {
    TotalIsGridBytes(kept[..i]);
    assert RowsOf(kept)[..i] == RowsOf(kept[..i]);
    SumIsRowBytes(kept[i][..j]);
    assert CellsOf(kept[i])[..j] == CellsOf(kept[i][..j]);
  }

  lemma KeptCells(source: QueryResult, policy: Policy, s: Snapshot, kept: seq<seq<RetainedCell>>)
    requires SnapshotOf(source, policy, s, kept)
    ensures |s.rows| == |kept|
    ensures forall i | 0 <= i < |kept| :: |s.rows[i]| == |kept[i]|
    ensures forall i, j | 0 <= i < |kept| && 0 <= j < |kept[i]| :: s.rows[i][j] == kept[i][j].cell
    ensures s.cellTruncations == AllTruncations(kept)
  {
    RowsOfSnapshot(source, policy, s, kept);
    hide SnapshotOf, AllTruncations;
  }

  ghost predicate KeptAs(source: Cell, policy: Policy, used: nat, i: nat, j: nat, cell: Cell) {
    && used <= MAX_RESULT_BYTES
    && var image := Kept(source, Cap(policy, used), policy.MaxDepth(), i, j);
    && image.Some? && cell == image.value.cell
  }

  ghost predicate ImageInPlace(source: QueryResult, policy: Policy, s: Snapshot, i: nat, j: nat) {
    && i < |s.rows| && i < |source.rows| && j < |s.rows[i]| && j < |source.rows[i]|
    && KeptAs(source.rows[i][j], policy,
              TotalColumnBytes(s.columns) + GridBytes(s.rows[..i]) + RowBytes(s.rows[i][..j]), i, j, s.rows[i][j])
  }

  /**
   Every cell of a snapshot is what `retain_cell` makes of the cell at the same place of the source, under the
   smaller of the cell limit and of the bytes that the columns and all earlier cells leave.
   */
  lemma CellsAreImages(source: QueryResult, policy: Policy, s: Snapshot, i: nat, j: nat)
    requires IsSnapshot(source, policy, s) && i < |s.rows| && j < |s.columns|
    ensures ImageInPlace(source, policy, s, i, j)
  {
    hide SnapshotOf, TotalSum, TotalColumnBytes, GridBytes, RowBytes, Sum, AllTruncations, CountsRight, RowsOf,
         CellsOf, KeptAs, IsImage;
    var kept: seq<seq<RetainedCell>> :| SnapshotOf(source, policy, s, kept);
    RowsOfSnapshot(source, policy, s, kept);
    KeptCells(source, policy, s, kept);
    RowsAreWide(source, policy, s, kept, i);
    CountsAreRight(source, policy, s, kept);
    PrefixTotals(kept, i, j);
    ImageOf(source, policy, s, kept, i, j);
    ImageIsKept(source.rows[i][j], TotalColumnBytes(s.columns) + TotalSum(kept[..i]) + Sum(kept[i][..j]), policy, i, j,
                kept[i][j]);
  }

  lemma ImageIsKept(source: Cell, used: nat, policy: Policy, i: nat, j: nat, cell: RetainedCell)
    requires IsImage(source, used, policy, i, j, cell)
    ensures KeptAs(source, policy, used, i, j, cell.cell)
  {
    hide Kept, KeptRight;
  }

  // ---- what the cells hold, and where the rows end ----

  /** What one cell may take when `used` bytes are taken. */
  ghost function Allowance(policy: Policy, used: nat): nat
    requires used <= MAX_RESULT_BYTES
  {
    Lesser(MAX_RESULT_BYTES - used, if policy.MySql? then MAX_RESULT_CELL_BYTES else MAX_REDIS_CELL_BYTES)
  }

  ghost function DepthAllowed(policy: Policy): Option<nat> {
    if policy.MySql? then None else Some(MAX_REDIS_DEPTH)
  }

  /** The bytes of the columns, of the rows before, and of the cells before in the row. */
  ghost function UsedBefore(s: Snapshot, i: nat, j: nat): nat
    requires i < |s.rows| && j <= |s.rows[i]|
  {
    TotalColumnBytes(s.columns) + GridBytes(s.rows[..i]) + RowBytes(s.rows[i][..j])
  }

  ghost predicate HoldsInPlace(source: QueryResult, policy: Policy, s: Snapshot, i: nat, j: nat) {
    && i < |s.rows| && i < |source.rows| && j < |s.rows[i]| && j < |source.rows[i]|
    && UsedBefore(s, i, j) <= MAX_RESULT_BYTES
    && HoldsContent(source.rows[i][j], Allowance(policy, UsedBefore(s, i, j)), DepthAllowed(policy), s.rows[i][j])
  }

  lemma KeptHolds(source: Cell, policy: Policy, used: nat, i: nat, j: nat, cell: Cell)
    requires KeptAs(source, policy, used, i, j, cell)
    ensures HoldsContent(source, Allowance(policy, used), DepthAllowed(policy), cell)
  {
    hide Kept, HoldsContent;
    KeptContent(source, Cap(policy, used), policy.MaxDepth(), i, j);
  }

  /**
   Every cell of a snapshot holds the content of the cell at its place: whole where it fits the limit of a cell and
   what is left of the limit of the result, and else the longest beginning that does.
   */
  lemma CellsHoldTheirContent(source: QueryResult, policy: Policy, s: Snapshot, i: nat, j: nat)
    requires IsSnapshot(source, policy, s) && i < |s.rows| && j < |s.columns|
    ensures HoldsInPlace(source, policy, s, i, j)
  {
    CellsAreImages(source, policy, s, i, j);
    hide IsSnapshot, KeptAs, HoldsContent, TotalColumnBytes, GridBytes, RowBytes;
    KeptSpace(source.rows[i][j], policy, UsedBefore(s, i, j), i, j, s.rows[i][j]);
    KeptHolds(source.rows[i][j], policy, UsedBefore(s, i, j), i, j, s.rows[i][j]);
  }

  lemma KeptSpace(source: Cell, policy: Policy, used: nat, i: nat, j: nat, cell: Cell)
    requires KeptAs(source, policy, used, i, j, cell)
    ensures used <= MAX_RESULT_BYTES
  {
    hide Kept;
  }

  /** A cell that cannot be kept when `used` bytes are taken: nothing is left, or it is one that is not cut. */
  ghost predicate CannotKeep(cell: Cell, policy: Policy, used: nat) {
    used <= MAX_RESULT_BYTES
    && (|| used == MAX_RESULT_BYTES
        || ((cell.Decimal? || cell.DateTime?) && Json.ByteLen(cell.text) > Allowance(policy, used))
        || (IsScalar(cell) && CellBytes(cell) > MAX_RESULT_BYTES - used))
  }

  /** The row stops at cell `j`, after cells that hold the content of those before it. */
  ghost predicate StopsAt(row: seq<Cell>, policy: Policy, used: nat, cells: seq<Cell>) {
    && |cells| < |row| && used + RowBytes(cells) <= MAX_RESULT_BYTES
    && (forall m: nat | m < |cells| ::
          used + RowBytes(cells[..m]) <= MAX_RESULT_BYTES
          && HoldsContent(row[m], Allowance(policy, used + RowBytes(cells[..m])), DepthAllowed(policy), cells[m]))
    && CannotKeep(row[|cells|], policy, used + RowBytes(cells))
  }

  lemma NoNextCell(cell: Cell, used: nat, policy: Policy, row: nat, column: nat)
    requires used <= MAX_RESULT_BYTES && NextCell(cell, used, policy, row, column).None?
    ensures CannotKeep(cell, policy, used)
  {
    if used < MAX_RESULT_BYTES {
      KeptMeaning(cell, Cap(policy, used), policy.MaxDepth(), row, column);
      hide Kept, HoldsContent;
      if Kept(cell, Cap(policy, used), policy.MaxDepth(), row, column).Some? && IsScalar(cell) {
        ScalarIsKept(cell, Cap(policy, used), policy.MaxDepth(), row, column);
      }
    }
  }

  lemma ScalarIsKept(cell: Cell, cap: nat, maxDepth: Option<nat>, row: nat, column: nat)
    requires IsScalar(cell)
    ensures Kept(cell, cap, maxDepth, row, column) == Some(RetainedCell(cell, CellBytes(cell), None, false))
  {
    hide CellBytes;
  }

  lemma {:induction false} RowStops(row: seq<Cell>, n: nat, used: nat, policy: Policy, index: nat) returns (j: nat)
    requires n <= |row| && RowKept(row, n, used, policy, index).None?
    ensures j < n && RowKept(row, j, used, policy, index).Some?
    ensures NextCell(row[j], used + Sum(RowKept(row, j, used, policy, index).value), policy, index, j).None?
  {
    hide NextCell, Sum;
    if RowKept(row, n - 1, used, policy, index).None? {
      j := RowStops(row, n - 1, used, policy, index);
    } else {
      j := n - 1;
    }
  }

  lemma RowStopsAt(row: seq<Cell>, n: nat, used: nat, policy: Policy, index: nat) returns (cells: seq<Cell>)
    requires n <= |row| && used <= MAX_RESULT_BYTES && RowKept(row, n, used, policy, index).None?
    ensures |cells| < n && StopsAt(row, policy, used, cells)
  {
    hide NextCell, Sum, RowBytes, HoldsContent, CannotKeep, RowKept;
    var j := RowStops(row, n, used, policy, index);
    var kept := RowKept(row, j, used, policy, index).value;
    RowTotal(row, j, used, policy, index, kept);
    cells := CellsOf(kept);
    RowSums(row, j, used, policy, index, kept, j);
    assert kept[..j] == kept && cells[..j] == cells;
    NoNextCell(row[j], used + Sum(kept), policy, index, j);
    forall m: nat | m < |cells|
      ensures used + RowBytes(cells[..m]) <= MAX_RESULT_BYTES
              && HoldsContent(row[m], Allowance(policy, used + RowBytes(cells[..m])), DepthAllowed(policy), cells[m])
    {
      RowSums(row, j, used, policy, index, kept, m);
      RowCellAt(row, j, used, policy, index, kept, m);
      NextCellIsImage(row[m], used + Sum(kept[..m]), policy, index, m, kept[m]);
      ImageIsKept(row[m], used + Sum(kept[..m]), policy, index, m, kept[m]);
      KeptSpace(row[m], policy, used + Sum(kept[..m]), index, m, kept[m].cell);
      KeptHolds(row[m], policy, used + Sum(kept[..m]), index, m, kept[m].cell);
    }
  }

  lemma RowSums(row: seq<Cell>, n: nat, used: nat, policy: Policy, index: nat, kept: seq<RetainedCell>, m: nat)
    requires n <= |row| && m <= n && RowKept(row, n, used, policy, index) == Some(kept)
    ensures |kept| == n && Sum(kept[..m]) == RowBytes(CellsOf(kept)[..m])
  {
    hide NextCell, Sum, RowBytes, RowKept, CellBytes;
    RowLength(row, n, used, policy, index);
    forall j | 0 <= j < m
      ensures kept[..m][j].retainedBytes == CellBytes(kept[..m][j].cell)
    {
      RowCellAt(row, n, used, policy, index, kept, j);
      NextCellIsImage(row[j], used + Sum(kept[..j]), policy, index, j, kept[j]);
      ImageCounts(row[j], used + Sum(kept[..j]), policy, index, j, kept[j]);
    }
    SumIsRowBytes(kept[..m]);
    assert CellsOf(kept)[..m] == CellsOf(kept[..m]);
  }

  lemma ImageCounts(source: Cell, used: nat, policy: Policy, row: nat, column: nat, cell: RetainedCell)
    requires IsImage(source, used, policy, row, column, cell)
    ensures cell.retainedBytes == CellBytes(cell.cell)
  {
    hide Kept, CellBytes;
  }

  /** More rows than these were asked for. */
  ghost predicate MoreRowsAllowed(policy: Policy, rows: nat) {
    rows < MAX_RESULT_ROWS && (policy.MySql? ==> rows < policy.requestedRows)
  }

  ghost predicate MoreCellsAllowed(policy: Policy, cells: nat) {
    match policy
    case MySql(_) => cells <= USIZE_MAX
    case Redis(requested) => cells <= requested && cells <= MAX_REDIS_CELLS
  }

  /** Why row `n` is not kept where rows were still allowed. */
  ghost predicate RowIsRefused(row: seq<Cell>, width: nat, used: nat, cells: nat, policy: Policy) {
    || used >= MAX_RESULT_BYTES
    || !MoreCellsAllowed(policy, cells + width) || !MoreCellsAllowed(policy, cells + 1)
    || |row| < width
    || exists part :: |part| < width && StopsAt(row, policy, used, part)
  }

  lemma NoNextRow(row: seq<Cell>, width: nat, used: nat, cells: nat, policy: Policy, index: nat)
    requires used <= MAX_RESULT_BYTES && NextRow(row, width, used, cells, policy, index).None?
    ensures RowIsRefused(row, width, used, cells, policy)
  {
    hide StopsAt, RowKept;
    if && used < MAX_RESULT_BYTES && |row| >= width && MoreCellsAllowed(policy, cells + width)
       && MoreCellsAllowed(policy, cells + 1) {
      var part := RowStopsAt(row, width, used, policy, index);
    }
  }

  function CellTotal(s: Snapshot): nat {
    |s.rows| * |s.columns|
  }

  lemma NextRowMissing(source: QueryResult, policy: Policy, s: Snapshot, kept: seq<seq<RetainedCell>>)
    requires SnapshotOf(source, policy, s, kept) && |kept| < |source.rows| && |kept| < policy.RowLimit()
    ensures NextRow(source.rows[|kept|], |s.columns|, s.retainedBytes, CellCount(kept), policy, |kept|).None?
  {
    hide NextRow, CellCount, TotalSum, TotalColumnBytes, NoticesOf, NoticeSet, Distinct, AnyWide, AllTruncations, RowsOf,
         ColumnsKept;
  }

  lemma CellsCounted(source: QueryResult, policy: Policy, s: Snapshot, kept: seq<seq<RetainedCell>>)
    requires SnapshotOf(source, policy, s, kept)
    ensures |s.rows| == |kept| && CellCount(kept) == CellTotal(s) <= policy.CellLimit()
    ensures s.retainedBytes <= MAX_RESULT_BYTES
  {
    hide *;
    RowsOfSnapshot(source, policy, s, kept);
    KeptCells(source, policy, s, kept);
    RowsTotal(source.rows, |kept|, |s.columns|, TotalColumnBytes(s.columns), policy, kept);
    assert CellTotal(s) == |kept| * |s.columns| by { CellTotalIs(s); }
  }

  lemma CellTotalIs(s: Snapshot)
    ensures CellTotal(s) == |s.rows| * |s.columns|
  {
  }

  /**
   The rows end only for a reason: as many as were asked for, as there are, or the next row does not fit in the bytes
   or cells that are left, is too short, or has a cell that cannot be cut to what is left.
   */
  lemma RowsEndForAReason(source: QueryResult, policy: Policy, s: Snapshot)
    requires IsSnapshot(source, policy, s)
    ensures |s.rows| < |source.rows| && MoreRowsAllowed(policy, |s.rows|) ==>
              RowIsRefused(source.rows[|s.rows|], |s.columns|, s.retainedBytes, CellTotal(s), policy)
    ensures |s.rows| <= MAX_RESULT_ROWS && (policy.MySql? ==> |s.rows| <= policy.requestedRows)
    ensures MoreCellsAllowed(policy, CellTotal(s))
  {
    var kept: seq<seq<RetainedCell>> :| SnapshotOf(source, policy, s, kept);
    RowsOfSnapshot(source, policy, s, kept);
    CellsCounted(source, policy, s, kept);
    hide IsSnapshot, RowIsRefused, CellTotal, CellCount;
    if |s.rows| < |source.rows| && MoreRowsAllowed(policy, |s.rows|) {
      NextRowMissing(source, policy, s, kept);
      NoNextRow(source.rows[|kept|], |s.columns|, s.retainedBytes, CellTotal(s), policy, |kept|);
    }
    hide SnapshotOf;
  }

  // ---- the record of the cuts ----

  predicate Before(a: CellTruncation, b: CellTruncation) {
    a.rowIndex < b.rowIndex || (a.rowIndex == b.rowIndex && a.columnIndex < b.columnIndex)
  }

  ghost predicate Ordered(list: seq<CellTruncation>) {
    forall a, b | 0 <= a < b < |list| :: Before(list[a], list[b])
  }

  /** The cuts of a row are those of its cells, each at its own place, in order. */
  lemma {:induction false} RowCuts(cells: seq<RetainedCell>, row: nat)
    requires forall j | 0 <= j < |cells| && cells[j].truncation.Some? ::
               cells[j].truncation.value.rowIndex == row && cells[j].truncation.value.columnIndex == j
    ensures Ordered(RowTruncations(cells))
    ensures forall t | t in RowTruncations(cells) :: t.rowIndex == row && t.columnIndex < |cells|
                                                     && cells[t.columnIndex].truncation == Some(t)
    ensures forall j | 0 <= j < |cells| && cells[j].truncation.Some? ::
              cells[j].truncation.value in RowTruncations(cells)
  {
    if cells != [] {
      var before := cells[..|cells| - 1];
      RowCuts(before, row);
      assert forall j | 0 <= j < |before| :: before[j] == cells[j];
      forall a, b | 0 <= a < b < |RowTruncations(cells)|
        ensures Before(RowTruncations(cells)[a], RowTruncations(cells)[b])
      {
        assert RowTruncations(cells)[a] in RowTruncations(before);
      }
    }
  }

  ghost predicate CutsInPlace(kept: seq<seq<RetainedCell>>) {
    forall i, j | 0 <= i < |kept| && 0 <= j < |kept[i]| && kept[i][j].truncation.Some? ::
      kept[i][j].truncation.value.rowIndex == i && kept[i][j].truncation.value.columnIndex == j
  }

  lemma {:induction false} GridCuts(kept: seq<seq<RetainedCell>>)
    requires CutsInPlace(kept)
    ensures Ordered(AllTruncations(kept))
    ensures forall t | t in AllTruncations(kept) ::
              t.rowIndex < |kept| && t.columnIndex < |kept[t.rowIndex]|
              && kept[t.rowIndex][t.columnIndex].truncation == Some(t)
    ensures forall i, j | 0 <= i < |kept| && 0 <= j < |kept[i]| && kept[i][j].truncation.Some? ::
              kept[i][j].truncation.value in AllTruncations(kept)
  {
    hide RowTruncations;
    if kept != [] {
      var before, last := kept[..|kept| - 1], kept[|kept| - 1];
      assert forall i | 0 <= i < |before| :: before[i] == kept[i];
      GridCuts(before);
      RowCuts(last, |kept| - 1);
      var all, earlier, later := AllTruncations(kept), AllTruncations(before), RowTruncations(last);
      assert all == earlier + later;
      assert forall t | t in all :: t in earlier || t in later;
      forall a, b | 0 <= a < b < |all|
        ensures Before(all[a], all[b])
      {
        if a < |earlier| {
          assert all[a] in earlier;
          if b >= |earlier| {
            assert all[b] in later;
          }
        }
      }
    }
  }

  ghost predicate Records(s: Snapshot, t: CellTruncation) {
    && t.rowIndex < |s.rows| && t.columnIndex < |s.rows[t.rowIndex]|
    && var cell := s.rows[t.rowIndex][t.columnIndex];
    && IsPreview(cell) && t.truncated && t.originalLen.Some?
    && t.retainedBytes == CellBytes(cell) <= t.originalLen.value && OriginalLenIs(cell, t.originalLen.value)
    && KindIs(cell, t.kind)
  }

  ghost predicate HasRecord(s: Snapshot, i: nat, j: nat) {
    exists t | t in s.cellTruncations :: t.rowIndex == i && t.columnIndex == j
  }

  lemma CutsOf(source: QueryResult, policy: Policy, s: Snapshot, kept: seq<seq<RetainedCell>>, i: nat, j: nat)
    requires SnapshotOf(source, policy, s, kept) && i < |kept| && j < |kept[i]|
    ensures |s.rows| == |kept| && |s.rows[i]| == |kept[i]| && s.rows[i][j] == kept[i][j].cell
    ensures kept[i][j].truncation.Some? <==> IsPreview(s.rows[i][j])
    ensures kept[i][j].truncation.Some? ==>
              Records(s, kept[i][j].truncation.value) && kept[i][j].truncation.value.rowIndex == i
              && kept[i][j].truncation.value.columnIndex == j
  {
    hide SnapshotOf, CellBytes, Sum, TotalSum, TotalColumnBytes, Kept, AllTruncations, IsPreview, OriginalLenIs;
    KeptCells(source, policy, s, kept);
    RowsAreWide(source, policy, s, kept, i);
    ImageOf(source, policy, s, kept, i, j);
  }

  /**
   The record of the cuts is in the order of the cells and names exactly the previews, each with what is kept
   of it and an original length no shorter.
   */
  lemma CutsAreRecorded(source: QueryResult, policy: Policy, s: Snapshot)
    requires IsSnapshot(source, policy, s)
    ensures Ordered(s.cellTruncations)
    ensures forall t | t in s.cellTruncations :: Records(s, t)
    ensures forall i, j | 0 <= i < |s.rows| && 0 <= j < |s.rows[i]| :: IsPreview(s.rows[i][j]) <==> HasRecord(s, i, j)
  {
    var kept: seq<seq<RetainedCell>> :| SnapshotOf(source, policy, s, kept);
    KeptCells(source, policy, s, kept);
    hide SnapshotOf, IsPreview, Records, AllTruncations;
    forall i, j | 0 <= i < |kept| && 0 <= j < |kept[i]|
      ensures kept[i][j].truncation.Some? <==> IsPreview(s.rows[i][j])
      ensures kept[i][j].truncation.Some? ==>
                Records(s, kept[i][j].truncation.value) && kept[i][j].truncation.value.rowIndex == i
                && kept[i][j].truncation.value.columnIndex == j
    {
      CutsOf(source, policy, s, kept, i, j);
    }
    GridCuts(kept);
  }

  // ---- the flag ----

  ghost predicate AnyPreview(rows: seq<seq<Cell>>) {
    exists i, j | 0 <= i < |rows| && 0 <= j < |rows[i]| :: IsPreview(rows[i][j])
  }

  lemma AnyCut(source: QueryResult, policy: Policy, s: Snapshot, kept: seq<seq<RetainedCell>>)
    requires SnapshotOf(source, policy, s, kept)
    ensures s.cellTruncations != [] <==> AnyPreview(s.rows)
  {
    CutsAreRecorded(source, policy, s);
    hide SnapshotOf, IsPreview;
    if s.cellTruncations != [] {
      var t := s.cellTruncations[0];
      assert t in s.cellTruncations && Records(s, t);
    }
    if AnyPreview(s.rows) {
      var i, j :| 0 <= i < |s.rows| && 0 <= j < |s.rows[i]| && IsPreview(s.rows[i][j]);
      assert HasRecord(s, i, j);
    }
  }

  /** A snapshot is marked truncated exactly where the driver said so or something of the source is missing. */
  lemma TruncatedMeaning(source: QueryResult, policy: Policy, s: Snapshot)
    requires IsSnapshot(source, policy, s)
    ensures s.truncated <==> || source.truncated
                             || |s.columns| < |source.columns|
                             || |s.rows| < |source.rows|
                             || (exists i | 0 <= i < |s.rows| :: |source.rows[i]| > |s.columns|)
                             || AnyPreview(s.rows)
  {
    var kept: seq<seq<RetainedCell>> :| SnapshotOf(source, policy, s, kept);
    AnyCut(source, policy, s, kept);
    KeptCells(source, policy, s, kept);
    hide RowsKept, NoticesOf, NoticeSet, Distinct, CellCount, TotalSum, TotalColumnBytes, AllTruncations, AnyPreview,
         ColumnsKept;
    if AnyWide(source.rows, |kept|, |s.columns|) {
      var i :| 0 <= i < |kept| && i < |source.rows| && |source.rows[i]| > |s.columns|;
      assert 0 <= i < |s.rows|;
    }
  }

  lemma WholeCell(source: QueryResult, policy: Policy, s: Snapshot, kept: seq<seq<RetainedCell>>, i: nat, j: nat)
    requires SnapshotOf(source, policy, s, kept) && i < |s.rows| && j < |s.columns|
    ensures |s.rows[i]| == |s.columns| <= |source.rows[i]| && i < |source.rows|
    ensures WellFormed(source.rows[i][j]) && !IsPreview(s.rows[i][j]) ==> s.rows[i][j] == source.rows[i][j]
  {
    hide SnapshotOf, CellBytes, Sum, TotalSum, TotalColumnBytes, Kept, AllTruncations, IsPreview, OriginalLenIs,
         WellFormed, Records;
    KeptCells(source, policy, s, kept);
    RowsAreWide(source, policy, s, kept, i);
    CutsOf(source, policy, s, kept, i, j);
    ImageOf(source, policy, s, kept, i, j);
  }

  /** A snapshot that is not marked truncated is the source, where its byte cells are well formed. */
  lemma UntruncatedIsWhole(source: QueryResult, policy: Policy, s: Snapshot)
    requires IsSnapshot(source, policy, s) && !s.truncated
    requires forall i, j | 0 <= i < |source.rows| && 0 <= j < |source.rows[i]| :: WellFormed(source.rows[i][j])
    ensures s.columns == source.columns && s.rows == source.rows
  {
    var kept: seq<seq<RetainedCell>> :| SnapshotOf(source, policy, s, kept);
    TruncatedMeaning(source, policy, s);
    SnapshotIsBounded(source, policy, s);
    hide SnapshotOf, IsPreview, WellFormed, GridBytes, TotalColumnBytes;
    forall i | 0 <= i < |s.rows|
      ensures s.rows[i] == source.rows[i]
    {
      forall j | 0 <= j < |s.rows[i]|
        ensures s.rows[i][j] == source.rows[i][j]
      {
        WholeCell(source, policy, s, kept, i, j);
      }
    }
  }

  // ---- the notices ----

  lemma NoticesAre(source: QueryResult, policy: Policy, s: Snapshot, kept: seq<seq<RetainedCell>>)
    requires SnapshotOf(source, policy, s, kept)
    ensures Distinct(s.notices) && NoticeSet(s.notices) == NoticesOf(source, policy, s, kept)
    ensures CellCount(kept) == |kept| * |s.columns|
  {
    hide RowsKept, NoticesOf, NoticeSet, Distinct, RowsOf, AnyWide, AllTruncations, TotalColumnBytes, TotalSum,
         CellCount;
    RowsOfSnapshot(source, policy, s, kept);
    RowsTotal(source.rows, |kept|, |s.columns|, TotalColumnBytes(s.columns), policy, kept);
  }

  lemma InUnion(source: QueryResult, policy: Policy, s: Snapshot, kept: seq<seq<RetainedCell>>, n: ResultNotice)
    ensures n in NoticesOf(source, policy, s, kept)
       <==> || n in FirstSet(source, policy) || n in ColumnSet(source.columns, s.columns) || n in RowsNotices(kept)
            || n in StopNotices(|kept|, Lesser(|source.rows|, policy.RowLimit()), s.retainedBytes, CellCount(kept),
                                policy)
            || n in LastSet(|kept|, |source.rows|, CellCount(kept), policy)
  {
    hide FirstSet, ColumnSet, RowsNotices, StopNotices, LastSet, CellCount;
  }

  lemma InFirst(source: QueryResult, policy: Policy, n: ResultNotice)
    ensures n in FirstSet(source, policy)
       <==> || n == policy.TransientNotice()
            || (n == DriverReportedTruncation && source.truncated)
            || (n == BackendNoticesDiscarded && source.backendNoticesPresent)
  {
  }

  lemma InColumns(source: seq<Column>, columns: seq<Column>, n: ResultNotice)
    ensures n in ColumnSet(source, columns)
       <==> || (n == SnapshotByteLimitReached && ColumnsEndEarly(source, columns))
            || (n == ColumnLimitReached && |columns| < |source|)
  {
    hide ColumnsEndEarly;
  }

  lemma InRows(kept: seq<seq<RetainedCell>>, n: ResultNotice)
    ensures n in RowsNotices(kept)
       <==> || (n == CellPreviewTruncated && AllTruncations(kept) != [])
            || (n == RedisDepthLimitReached && AnyRowDeep(kept))
  {
    hide AllTruncations, AnyRowDeep;
  }

  lemma InStop(kept: nat, limit: nat, bytes: nat, cells: nat, policy: Policy, n: ResultNotice)
    ensures n in StopNotices(kept, limit, bytes, cells, policy)
       <==> && kept < limit
            && (|| (n == SnapshotByteLimitReached && (bytes >= MAX_RESULT_BYTES || cells < policy.CellLimit()))
                || (n == RedisCellLimitReached && cells >= policy.CellLimit()))
  {
  }

  lemma InLast(kept: nat, total: nat, cells: nat, policy: Policy, n: ResultNotice)
    ensures n in LastSet(kept, total, cells, policy)
       <==> && kept < total
            && (n == RowLimitReached || (n == RedisCellLimitReached && cells >= policy.CellLimit()))
  {
  }

  predicate TooDeep(cell: Cell, policy: Policy) {
    cell.JsonCell? && policy.MaxDepth().Some? && Levels(cell.document) > policy.MaxDepth().value
  }

  /** A document of the source, at the place of a retained cell, has too many levels. */
  ghost predicate AnyTooDeep(source: QueryResult, policy: Policy, s: Snapshot) {
    exists i, j | 0 <= i < |s.rows| && i < |source.rows| && 0 <= j < |s.columns| && j < |source.rows[i]| ::
      TooDeep(source.rows[i][j], policy)
  }

  lemma KeptDeep(cell: Cell, cap: nat, policy: Policy, row: nat, column: nat)
    ensures Kept(cell, cap, policy.MaxDepth(), row, column).Some? ==>
              (Kept(cell, cap, policy.MaxDepth(), row, column).value.depthTruncated <==> TooDeep(cell, policy))
  {
    hide Levels, Shallow, Cut;
  }

  lemma DeepCell(source: QueryResult, policy: Policy, s: Snapshot, kept: seq<seq<RetainedCell>>, i: nat, j: nat)
    requires SnapshotOf(source, policy, s, kept) && i < |kept| && j < |s.columns|
    ensures |kept| <= |source.rows| && |kept[i]| == |s.columns| <= |source.rows[i]|
    ensures kept[i][j].depthTruncated <==> TooDeep(source.rows[i][j], policy)
  {
    hide SnapshotOf, Kept, KeptRight, TooDeep, TotalColumnBytes, TotalSum, Sum;
    ImageOf(source, policy, s, kept, i, j);
    var used := TotalColumnBytes(s.columns) + TotalSum(kept[..i]) + Sum(kept[i][..j]);
    KeptDeep(source.rows[i][j], Cap(policy, used), policy, i, j);
  }

  lemma DeepCells(source: QueryResult, policy: Policy, s: Snapshot, kept: seq<seq<RetainedCell>>)
    requires SnapshotOf(source, policy, s, kept)
    ensures AnyRowDeep(kept) <==> AnyTooDeep(source, policy, s)
  {
    KeptCells(source, policy, s, kept);
    hide SnapshotOf, TooDeep;
    if AnyRowDeep(kept) {
      var i :| 0 <= i < |kept| && AnyDeep(kept[i]);
      var j :| 0 <= j < |kept[i]| && kept[i][j].depthTruncated;
      RowsAreWide(source, policy, s, kept, i);
      DeepCell(source, policy, s, kept, i, j);
    }
    if AnyTooDeep(source, policy, s) {
      var i, j :| 0 <= i < |s.rows| && i < |source.rows| && 0 <= j < |s.columns| && j < |source.rows[i]|
                  && TooDeep(source.rows[i][j], policy);
      DeepCell(source, policy, s, kept, i, j);
      assert AnyDeep(kept[i]);
    }
  }

  /** Whether a notice is given, by the one condition it stands for. */
  ghost predicate Said(n: ResultNotice, source: QueryResult, policy: Policy, s: Snapshot) {
    var rows, cells := |s.rows|, |s.rows| * |s.columns|;
    match n
    case CellPreviewTruncated => s.cellTruncations != []
    case DriverReportedTruncation => source.truncated
    case BackendNoticesDiscarded => source.backendNoticesPresent
    case ColumnLimitReached => |s.columns| < |source.columns|
    case RowLimitReached => rows < |source.rows|
    case RedisCellLimitReached => rows < |source.rows| && cells >= policy.CellLimit()
    case RedisDepthLimitReached => AnyTooDeep(source, policy, s)
    case SnapshotByteLimitReached =>
      || ColumnsEndEarly(source.columns, s.columns)
      || (&& rows < |source.rows| && rows < policy.RowLimit()
          && (s.retainedBytes >= MAX_RESULT_BYTES || cells < policy.CellLimit()))
    case MySqlTransientRowAllocation => policy.MySql?
    case RedisTransientFrameAllocation => policy.Redis?
  }

  lemma NoticeIsSaid(source: QueryResult, policy: Policy, s: Snapshot, kept: seq<seq<RetainedCell>>, n: ResultNotice)
    requires |s.rows| == |kept| && s.cellTruncations == AllTruncations(kept)
    requires CellCount(kept) == |s.rows| * |s.columns| && (AnyRowDeep(kept) <==> AnyTooDeep(source, policy, s))
    ensures n in NoticesOf(source, policy, s, kept) <==> Said(n, source, policy, s)
  {
    hide NoticesOf, FirstSet, ColumnSet, RowsNotices, StopNotices, LastSet, CellCount, AllTruncations, AnyRowDeep,
         ColumnsEndEarly, AnyTooDeep;
    InUnion(source, policy, s, kept, n);
    InFirst(source, policy, n);
    InColumns(source.columns, s.columns, n);
    InRows(kept, n);
    InStop(|kept|, Lesser(|source.rows|, policy.RowLimit()), s.retainedBytes, CellCount(kept), policy, n);
    InLast(|kept|, |source.rows|, CellCount(kept), policy, n);
  }

  /** No notice is repeated or lost to the limit on their number, and each is there for one reason. */
  lemma NoticesMeaning(source: QueryResult, policy: Policy, s: Snapshot)
    requires IsSnapshot(source, policy, s)
    ensures Distinct(s.notices) && |s.notices| <= 10
    ensures forall n: ResultNotice :: n in s.notices <==> Said(n, source, policy, s)
  {
    var kept: seq<seq<RetainedCell>> :| SnapshotOf(source, policy, s, kept);
    KeptCells(source, policy, s, kept);
    NoticesAre(source, policy, s, kept);
    DeepCells(source, policy, s, kept);
    hide SnapshotOf, NoticesOf, AllTruncations, Distinct, Said, CellCount, AnyRowDeep, AnyTooDeep;
    NoticesFit(s.notices);
    forall n: ResultNotice
      ensures n in s.notices <==> Said(n, source, policy, s)
    {
      NoticeIsSaid(source, policy, s, kept, n);
      assert n in s.notices <==> n in NoticeSet(s.notices);
    }
  }
}
