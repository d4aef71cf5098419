/** `ResultSnapshot::retain`: the bounded snapshot of a decoded result. */
module ResultSnapshot {
  import opened Limits
  import opened Wrappers
  import opened Cells
  import opened RetainedCells
  import opened Numbers
  import Json
  import Sets

  datatype QueryResult = QueryResult(
    columns: seq<Column>, rows: seq<seq<Cell>>, affectedRows: nat, lastInsertId: Option<nat>, truncated: bool,
    backendNoticesPresent: bool)

  datatype ResultNotice =
    | DriverReportedTruncation
    | ColumnLimitReached
    | RowLimitReached
    | SnapshotByteLimitReached
    | CellPreviewTruncated
    | RedisCellLimitReached
    | RedisDepthLimitReached
    | BackendNoticesDiscarded
    | MySqlTransientRowAllocation
    | RedisTransientFrameAllocation

  datatype Policy = MySql(requestedRows: nat) | Redis(requestedCells: nat) {
    function RowLimit(): nat {
      match this
      case MySql(requested) => if requested < MAX_RESULT_ROWS then requested else MAX_RESULT_ROWS
      case Redis(_) => MAX_RESULT_ROWS
    }

    function CellLimit(): nat {
      match this
      case MySql(_) => USIZE_MAX
      case Redis(requested) => if requested < MAX_REDIS_CELLS then requested else MAX_REDIS_CELLS
    }

    function CellBytesLimit(): nat {
      if MySql? then MAX_RESULT_CELL_BYTES else MAX_REDIS_CELL_BYTES
    }

    function MaxDepth(): Option<nat> {
      if MySql? then None else Some(MAX_REDIS_DEPTH)
    }

    function TransientNotice(): ResultNotice {
      if MySql? then MySqlTransientRowAllocation else RedisTransientFrameAllocation
    }
  }

  datatype Snapshot = Snapshot(
    columns: seq<Column>, rows: seq<seq<Cell>>, affectedRows: nat, lastInsertId: Option<nat>, truncated: bool,
    notices: seq<ResultNotice>, retainedBytes: nat, cellTruncations: seq<CellTruncation>)

  // ---- notices ----

  predicate Distinct(notices: seq<ResultNotice>) {
    forall i, j | 0 <= i < j < |notices| :: notices[i] != notices[j]
  }

  ghost function NoticeSet(notices: seq<ResultNotice>): set<ResultNotice> {
    set n | n in notices
  }

  lemma {:induction false} DistinctCount(notices: seq<ResultNotice>)
    requires Distinct(notices)
    ensures |NoticeSet(notices)| == |notices|
  {
    if notices != [] {
      var most, last := notices[..|notices| - 1], notices[|notices| - 1];
      DistinctCount(most);
      assert last !in most;
      assert NoticeSet(notices) == NoticeSet(most) + {last};
    }
  }

  /** There are ten notices, so a list without repetition never reaches its limit. */
  lemma NoticesFit(notices: seq<ResultNotice>)
    requires Distinct(notices)
    ensures |notices| <= 10 < MAX_RESULT_NOTICES
  {
    DistinctCount(notices);
    var all := {DriverReportedTruncation, ColumnLimitReached, RowLimitReached, SnapshotByteLimitReached,
                CellPreviewTruncated, RedisCellLimitReached, RedisDepthLimitReached, BackendNoticesDiscarded,
                MySqlTransientRowAllocation, RedisTransientFrameAllocation};
    Sets.SubsetCount(NoticeSet(notices), all);
  }

  /** `push_result_notice`. */
  method PushNotice(notices: seq<ResultNotice>, notice: ResultNotice) returns (pushed: seq<ResultNotice>)
    requires Distinct(notices)
    ensures Distinct(pushed) && NoticeSet(pushed) == NoticeSet(notices) + {notice}
    ensures notices <= pushed
  {
    NoticesFit(notices);
    if |notices| < MAX_RESULT_NOTICES && notice !in notices {
      return notices + [notice];
    }
    return notices;
  }

  // ---- columns ----

  function ColumnBytes(column: Column): nat {
    Json.ByteLen(column.name) + Json.ByteLen(column.typeName)
  }

  /** A column counts for the bytes of its name and of its type, written one after the other. */
  lemma ColumnBytesMeaning(column: Column)
    ensures ColumnBytes(column) == |Json.Utf8(column.name + column.typeName)|
  {
    Json.Utf8Append(column.name, column.typeName);
  }

  function TotalColumnBytes(columns: seq<Column>): nat {
    if columns == [] then 0
    else TotalColumnBytes(columns[..|columns| - 1]) + ColumnBytes(columns[|columns| - 1])
  }

  ghost predicate ColumnFits(column: Column, before: nat) {
    ColumnBytes(column) <= MAX_RESULT_CELL_BYTES && before + ColumnBytes(column) <= MAX_RESULT_BYTES
  }

  /** The columns are the longest prefix of the source's that the limits admit. */
  ghost predicate ColumnsKept(source: seq<Column>, columns: seq<Column>) {
    && columns <= source && |columns| <= MAX_RESULT_COLUMNS
    && TotalColumnBytes(columns) <= MAX_RESULT_BYTES
    && (forall i | 0 <= i < |columns| :: ColumnBytes(columns[i]) <= MAX_RESULT_CELL_BYTES)
    && (|columns| < |source| ==> |columns| == MAX_RESULT_COLUMNS
                                 || !ColumnFits(source[|columns|], TotalColumnBytes(columns)))
  }

  /** The columns end before a column for its size. */
  ghost predicate ColumnsEndEarly(source: seq<Column>, columns: seq<Column>) {
    |columns| < |source| && |columns| < MAX_RESULT_COLUMNS
  }

  method RetainColumns(source: seq<Column>, notices: seq<ResultNotice>)
    returns (columns: seq<Column>, retainedBytes: nat, noted: seq<ResultNotice>)
    requires Distinct(notices)
    ensures ColumnsKept(source, columns) && retainedBytes == TotalColumnBytes(columns)
    ensures Distinct(noted)
    ensures NoticeSet(noted) == NoticeSet(notices) + If(ColumnsEndEarly(source, columns), SnapshotByteLimitReached)
  {
    hide ColumnBytes, NoticeSet, Distinct;
    columns, retainedBytes, noted := [], 0, notices;
    var limit := if |source| < MAX_RESULT_COLUMNS then |source| else MAX_RESULT_COLUMNS;
    var i := 0;
    while i < limit
      invariant 0 <= i <= limit && columns == source[..i]
      invariant retainedBytes == TotalColumnBytes(columns) <= MAX_RESULT_BYTES
      invariant forall j | 0 <= j < i :: ColumnBytes(columns[j]) <= MAX_RESULT_CELL_BYTES
    {
      var bytes := ColumnBytes(source[i]);
      if bytes > MAX_RESULT_CELL_BYTES {
        noted := PushNotice(notices, SnapshotByteLimitReached);
        return;
      }
      if retainedBytes + bytes > MAX_RESULT_BYTES {
        noted := PushNotice(notices, SnapshotByteLimitReached);
        return;
      }
      retainedBytes := retainedBytes + bytes;
      assert (columns + [source[i]])[..i] == columns;
      columns := columns + [source[i]];
      i := i + 1;
    }
  }

  ghost function If(condition: bool, notice: ResultNotice): set<ResultNotice> {
    if condition then {notice} else {}
  }

  // ---- rows ----

  ghost function Sum(cells: seq<RetainedCell>): nat {
    if cells == [] then 0 else Sum(cells[..|cells| - 1]) + cells[|cells| - 1].retainedBytes
  }

  ghost function TotalSum(rows: seq<seq<RetainedCell>>): nat {
    if rows == [] then 0 else TotalSum(rows[..|rows| - 1]) + Sum(rows[|rows| - 1])
  }

  ghost function CellCount(rows: seq<seq<RetainedCell>>): nat {
    if rows == [] then 0 else CellCount(rows[..|rows| - 1]) + |rows[|rows| - 1]|
  }

  ghost function CellsOf(cells: seq<RetainedCell>): seq<Cell> {
    seq(|cells|, i requires 0 <= i < |cells| => cells[i].cell)
  }

  ghost function RowTruncations(cells: seq<RetainedCell>): seq<CellTruncation> {
    if cells == [] then []
    else
      var last := cells[|cells| - 1];
      RowTruncations(cells[..|cells| - 1]) + if last.truncation.Some? then [last.truncation.value] else []
  }

  ghost function AllTruncations(rows: seq<seq<RetainedCell>>): seq<CellTruncation> {
    if rows == [] then [] else AllTruncations(rows[..|rows| - 1]) + RowTruncations(rows[|rows| - 1])
  }

  ghost predicate AnyDeep(cells: seq<RetainedCell>) {
    exists i | 0 <= i < |cells| :: cells[i].depthTruncated
  }

  ghost predicate AnyRowDeep(rows: seq<seq<RetainedCell>>) {
    exists i | 0 <= i < |rows| :: AnyDeep(rows[i])
  }

  function Cap(policy: Policy, used: nat): nat
    requires used <= MAX_RESULT_BYTES
  {
    if MAX_RESULT_BYTES - used < policy.CellBytesLimit() then MAX_RESULT_BYTES - used else policy.CellBytesLimit()
  }

  /** The next cell of a row, when `used` bytes are taken; `None` where it does not fit. */
  ghost function NextCell(cell: Cell, used: nat, policy: Policy, row: nat, column: nat): Option<RetainedCell> {
    if used >= MAX_RESULT_BYTES then None
    else
      var kept := Kept(cell, Cap(policy, used), policy.MaxDepth(), row, column);
      if kept.None? || kept.value.retainedBytes > MAX_RESULT_BYTES - used then None else kept
  }

  /** The first `n` cells of a row, kept one after the other; `None` where one does not fit. */
  ghost function RowKept(row: seq<Cell>, n: nat, used: nat, policy: Policy, index: nat): Option<seq<RetainedCell>>
    requires n <= |row|
  {
    if n == 0 then Some([])
    else
      var before := RowKept(row, n - 1, used, policy, index);
      if before.None? then None
      else
        var next := NextCell(row[n - 1], used + Sum(before.value), policy, index, n - 1);
        if next.None? then None else Some(before.value + [next.value])
  }

  /** The next row, when `bytes` bytes and `cells` cells are taken; `None` where it is not kept. */
  ghost function NextRow(row: seq<Cell>, width: nat, bytes: nat, cells: nat, policy: Policy, index: nat)
    : Option<seq<RetainedCell>>
  {
    if bytes >= MAX_RESULT_BYTES || cells >= policy.CellLimit() then None
    else if |row| < width || policy.CellLimit() - cells < width then None
    else RowKept(row, width, bytes, policy, index)
  }

  /** The first `n` rows; `None` where one is not kept. */
  ghost function RowsKept(rows: seq<seq<Cell>>, n: nat, width: nat, columnBytes: nat, policy: Policy)
    : Option<seq<seq<RetainedCell>>>
    requires n <= |rows|
  {
    if n == 0 then Some([])
    else
      var before := RowsKept(rows, n - 1, width, columnBytes, policy);
      if before.None? then None
      else
        var next := NextRow(rows[n - 1], width, columnBytes + TotalSum(before.value), CellCount(before.value),
                            policy, n - 1);
        if next.None? then None else Some(before.value + [next.value])
  }

  lemma {:induction false} RowKeptPrefix(row: seq<Cell>, m: nat, n: nat, used: nat, policy: Policy, index: nat)
    requires m <= n <= |row| && RowKept(row, n, used, policy, index).Some?
    ensures RowKept(row, m, used, policy, index).Some?
    decreases n
  {
    hide NextCell;
    if m < n {
      RowKeptPrefix(row, m, n - 1, used, policy, index);
    }
  }

  /** What one row does to the list of notices. */
  ghost function RowNotices(cells: seq<RetainedCell>): set<ResultNotice> {
    If(RowTruncations(cells) != [], CellPreviewTruncated) + If(AnyDeep(cells), RedisDepthLimitReached)
  }

  ghost function RowsOf(rows: seq<seq<RetainedCell>>): seq<seq<Cell>> {
    seq(|rows|, i requires 0 <= i < |rows| => CellsOf(rows[i]))
  }

  /** What the rows kept do to the list of notices. */
  ghost function RowsNotices(rows: seq<seq<RetainedCell>>): set<ResultNotice> {
    If(AllTruncations(rows) != [], CellPreviewTruncated) + If(AnyRowDeep(rows), RedisDepthLimitReached)
  }

  lemma OneMoreCell(cells: seq<RetainedCell>, cell: RetainedCell)
    ensures Sum(cells + [cell]) == Sum(cells) + cell.retainedBytes
    ensures CellsOf(cells + [cell]) == CellsOf(cells) + [cell.cell]
    ensures RowTruncations(cells + [cell])
         == RowTruncations(cells) + (if cell.truncation.Some? then [cell.truncation.value] else [])
    ensures AnyDeep(cells + [cell]) <==> AnyDeep(cells) || cell.depthTruncated
  {
    var more := cells + [cell];
    assert more[..|more| - 1] == cells;
    assert more[|cells|] == cell;
    if AnyDeep(cells) {
      var i :| 0 <= i < |cells| && cells[i].depthTruncated;
      assert more[i].depthTruncated;
    }
  }

  /** The inner loop of `retain`: the cells of one row until one does not fit. */
  method RetainRow(source: seq<Cell>, allowed: nat, policy: Policy, index: nat, start: nat,
                   notices: seq<ResultNotice>)
    returns (row: seq<Cell>, bytes: nat, truncations: seq<CellTruncation>, noted: seq<ResultNotice>,
             complete: bool, drop: bool, ghost cells: seq<RetainedCell>)
    requires allowed <= |source| && start < MAX_RESULT_BYTES && Distinct(notices)
    ensures |cells| <= allowed && RowKept(source, |cells|, start, policy, index) == Some(cells)
    ensures row == CellsOf(cells) && bytes == start + Sum(cells) <= MAX_RESULT_BYTES
    ensures truncations == RowTruncations(cells)
    ensures Distinct(noted) && notices <= noted && NoticeSet(noted) == NoticeSet(notices) + RowNotices(cells)
    ensures complete <==> |cells| == allowed
    ensures drop ==> !complete
    ensures !complete ==> RowKept(source, |cells| + 1, start, policy, index).None?
  {
    hide Kept, NoticeSet, Distinct, Sum, CellsOf, RowTruncations, AnyDeep;
    row, bytes, truncations, noted, cells := [], start, [], notices, [];
    NoCells();
    var column := 0;
    while column < allowed
      invariant 0 <= column <= allowed && |cells| == column
      invariant RowKept(source, column, start, policy, index) == Some(cells)
      invariant row == CellsOf(cells) && bytes == start + Sum(cells) <= MAX_RESULT_BYTES
      invariant truncations == RowTruncations(cells)
      invariant Distinct(noted) && notices <= noted
      invariant NoticeSet(noted) == NoticeSet(notices) + RowNotices(cells)
    {
      var remaining := MAX_RESULT_BYTES - bytes;
      if remaining == 0 {
        return row, bytes, truncations, noted, false, false, cells;
      }
      var kept := RetainCell(source[column], Cap(policy, bytes), policy.MaxDepth(), index, column);
      if kept.None? {
        return row, bytes, truncations, noted, false, true, cells;
      }
      if kept.value.retainedBytes > remaining {
        return row, bytes, truncations, noted, false, false, cells;
      }
      OneMoreCell(cells, kept.value);
      if kept.value.depthTruncated {
        noted := PushNotice(noted, RedisDepthLimitReached);
      }
      if kept.value.truncation.Some? {
        truncations := truncations + [kept.value.truncation.value];
        noted := PushNotice(noted, CellPreviewTruncated);
      }
      bytes := bytes + kept.value.retainedBytes;
      row := row + [kept.value.cell];
      cells := cells + [kept.value];
      column := column + 1;
    }
    return row, bytes, truncations, noted, true, false, cells;
  }

  lemma NoCells()
    ensures Sum([]) == 0 && CellsOf([]) == [] && RowTruncations([]) == [] && !AnyDeep([])
  {
  }

  lemma OneMoreRow(rows: seq<seq<RetainedCell>>, row: seq<RetainedCell>)
    ensures TotalSum(rows + [row]) == TotalSum(rows) + Sum(row)
    ensures CellCount(rows + [row]) == CellCount(rows) + |row|
    ensures RowsOf(rows + [row]) == RowsOf(rows) + [CellsOf(row)]
    ensures AllTruncations(rows + [row]) == AllTruncations(rows) + RowTruncations(row)
    ensures RowsNotices(rows + [row]) == RowsNotices(rows) + RowNotices(row)
  {
    hide Sum, RowTruncations, CellsOf, AnyDeep, AnyRowDeep, RowsOf;
    var more := rows + [row];
    assert more[..|more| - 1] == rows;
    assert more[|rows|] == row;
    OneMoreRowOf(rows, row);
    OneMoreDeep(rows, row);
  }

  lemma OneMoreRowOf(rows: seq<seq<RetainedCell>>, row: seq<RetainedCell>)
    ensures RowsOf(rows + [row]) == RowsOf(rows) + [CellsOf(row)]
  {
    hide CellsOf;
  }

  lemma OneMoreDeep(rows: seq<seq<RetainedCell>>, row: seq<RetainedCell>)
    ensures AnyRowDeep(rows + [row]) <==> AnyRowDeep(rows) || AnyDeep(row)
  {
    hide AnyDeep;
    var more := rows + [row];
    assert more[|rows|] == row;
    assert forall i | 0 <= i < |rows| :: more[i] == rows[i];
  }

  lemma NoRows()
    ensures TotalSum([]) == 0 && CellCount([]) == 0 && RowsOf([]) == [] && AllTruncations([]) == []
    ensures RowsNotices([]) == {}
  {
  }

  /** A row among the first `n` of the source has more cells than are kept of it. */
  ghost predicate AnyWide(rows: seq<seq<Cell>>, n: nat, width: nat) {
    exists i | 0 <= i < n && i < |rows| :: |rows[i]| > width
  }

  lemma OneMoreWide(rows: seq<seq<Cell>>, n: nat, width: nat)
    requires n < |rows|
    ensures AnyWide(rows, n + 1, width) <==> AnyWide(rows, n, width) || |rows[n]| > width
  {
    if |rows[n]| > width {
      assert 0 <= n < n + 1;
    }
    if AnyWide(rows, n, width) {
      var i :| 0 <= i < n && i < |rows| && |rows[i]| > width;
      assert 0 <= i < n + 1;
    }
  }

  /** How the rows ended before the limit on their number, and what that notes. */
  ghost function StopNotices(n: nat, limit: nat, bytes: nat, cells: nat, policy: Policy): set<ResultNotice> {
    If(n < limit && (bytes >= MAX_RESULT_BYTES || cells < policy.CellLimit()), SnapshotByteLimitReached)
    + If(n < limit && cells >= policy.CellLimit(), RedisCellLimitReached)
  }

  /** The outer loop of `retain`: the rows until one is not kept, whose traces are then undone. */
  method RetainRows(source: seq<seq<Cell>>, width: nat, columnBytes: nat, policy: Policy, notices: seq<ResultNotice>)
    returns (rows: seq<seq<Cell>>, retainedBytes: nat, retainedCells: nat, cellTruncations: seq<CellTruncation>,
             noted: seq<ResultNotice>, cut: bool, ghost kept: seq<seq<RetainedCell>>)
    requires columnBytes <= MAX_RESULT_BYTES && Distinct(notices)
    ensures |kept| <= |source| && |kept| <= policy.RowLimit()
    ensures RowsKept(source, |kept|, width, columnBytes, policy) == Some(kept)
    ensures |kept| < |source| && |kept| < policy.RowLimit() ==>
              RowsKept(source, |kept| + 1, width, columnBytes, policy).None?
    ensures rows == RowsOf(kept) && retainedBytes == columnBytes + TotalSum(kept) <= MAX_RESULT_BYTES
    ensures retainedCells == CellCount(kept) && cellTruncations == AllTruncations(kept)
    ensures Distinct(noted)
    ensures NoticeSet(noted)
         == NoticeSet(notices) + RowsNotices(kept)
            + StopNotices(|kept|, Lesser(|source|, policy.RowLimit()), retainedBytes, retainedCells, policy)
    ensures cut || |kept| < |source| <==>
            |kept| < |source| || AnyWide(source, |kept|, width) || AllTruncations(kept) != []
  {
    hide NoticeSet, Distinct, Sum, CellsOf, RowTruncations, AnyDeep, TotalSum, CellCount, RowsOf, AllTruncations,
         RowsNotices, RowKept, RowNotices, AnyWide;
    rows, retainedBytes, retainedCells, cellTruncations, noted, cut, kept := [], columnBytes, 0, [], notices, false, [];
    NoRows();
    var limit := Lesser(|source|, policy.RowLimit());
    var i := 0;
    assert !AnyWide(source, 0, width) by {
      NoneWide(source, width);
    }
    while i < limit
      invariant 0 <= i <= limit && |kept| == i
      invariant RowsKept(source, i, width, columnBytes, policy) == Some(kept)
      invariant rows == RowsOf(kept) && retainedBytes == columnBytes + TotalSum(kept) <= MAX_RESULT_BYTES
      invariant retainedCells == CellCount(kept) && cellTruncations == AllTruncations(kept)
      invariant Distinct(noted) && NoticeSet(noted) == NoticeSet(notices) + RowsNotices(kept)
      invariant cut <==> AnyWide(source, i, width) || AllTruncations(kept) != []
    {
      var cellLimit := policy.CellLimit();
      if retainedBytes >= MAX_RESULT_BYTES || retainedCells >= cellLimit {
        if retainedBytes >= MAX_RESULT_BYTES {
          noted := PushNotice(noted, SnapshotByteLimitReached);
        }
        if retainedCells >= cellLimit {
          noted := PushNotice(noted, RedisCellLimitReached);
        }
        cut := true;
        return;
      }
      var sourceRow := source[i];
      var allowedColumns := Lesser(width, |sourceRow|);
      var allowed := Lesser(allowedColumns, cellLimit - retainedCells);
      var row, bytes, truncations, rowNoted, complete, drop, cells :=
        RetainRow(sourceRow, allowed, policy, i, retainedBytes, noted);
      RowFate(sourceRow, width, retainedBytes, retainedCells, policy, i, allowed, cells);
      if allowed < |sourceRow| || allowed < width {
        complete := false;
      }
      OneMoreWide(source, i, width);
      if drop || (|row| != width && width != 0) {
        // The notices, the cuts and the counts go back to where the row began.
        assert rowNoted[..|noted|] == noted;
        noted := PushNotice(rowNoted[..|noted|], SnapshotByteLimitReached);
        cut := true;
        return;
      }
      OneMoreRow(kept, cells);
      cut := cut || !complete || truncations != [];
      rows := rows + [row];
      retainedBytes := bytes;
      retainedCells := retainedCells + |row|;
      cellTruncations := cellTruncations + truncations;
      noted := rowNoted;
      kept := kept + [cells];
      i := i + 1;
    }
  }

  lemma NoneWide(rows: seq<seq<Cell>>, width: nat)
    ensures !AnyWide(rows, 0, width)
  {
  }

  /** Whether a row is kept, read off the cells that were kept of it. */
  lemma RowFate(row: seq<Cell>, width: nat, bytes: nat, count: nat, policy: Policy, index: nat, allowed: nat,
                cells: seq<RetainedCell>)
    requires bytes < MAX_RESULT_BYTES && count < policy.CellLimit()
    requires allowed == Lesser(Lesser(width, |row|), policy.CellLimit() - count)
    requires |cells| <= allowed && RowKept(row, |cells|, bytes, policy, index) == Some(cells)
    requires |cells| < allowed ==> RowKept(row, |cells| + 1, bytes, policy, index).None?
    ensures |CellsOf(cells)| == |cells|
    ensures |cells| == width ==> NextRow(row, width, bytes, count, policy, index) == Some(cells)
    ensures |cells| != width ==> NextRow(row, width, bytes, count, policy, index).None?
  {
    hide RowKept;
    if |cells| != width && NextRow(row, width, bytes, count, policy, index).Some? {
      RowKeptPrefix(row, |cells| + 1, width, bytes, policy, index);
    }
  }

  // ---- the whole of it ----

  ghost function FirstSet(source: QueryResult, policy: Policy): set<ResultNotice> {
    {policy.TransientNotice()} + If(source.truncated, DriverReportedTruncation)
    + If(source.backendNoticesPresent, BackendNoticesDiscarded)
  }

  ghost function ColumnSet(source: seq<Column>, columns: seq<Column>): set<ResultNotice> {
    If(ColumnsEndEarly(source, columns), SnapshotByteLimitReached) + If(|columns| < |source|, ColumnLimitReached)
  }

  ghost function LastSet(kept: nat, total: nat, cells: nat, policy: Policy): set<ResultNotice> {
    If(kept < total, RowLimitReached) + If(kept < total && cells >= policy.CellLimit(), RedisCellLimitReached)
  }

  /** The notices of a snapshot, each with the one condition it stands for. */
  ghost function NoticesOf(source: QueryResult, policy: Policy, s: Snapshot, kept: seq<seq<RetainedCell>>)
    : set<ResultNotice>
  {
    FirstSet(source, policy)
    + ColumnSet(source.columns, s.columns)
    + RowsNotices(kept)
    + StopNotices(|kept|, Lesser(|source.rows|, policy.RowLimit()), s.retainedBytes, CellCount(kept), policy)
    + LastSet(|kept|, |source.rows|, CellCount(kept), policy)
  }

  /** The snapshot of a result, given the cells kept of its rows. */
  ghost predicate SnapshotOf(source: QueryResult, policy: Policy, s: Snapshot, kept: seq<seq<RetainedCell>>) {
    var n, width, columnBytes := |kept|, |s.columns|, TotalColumnBytes(s.columns);
    && ColumnsKept(source.columns, s.columns)
    && n <= |source.rows| && n <= policy.RowLimit()
    && RowsKept(source.rows, n, width, columnBytes, policy) == Some(kept)
    && (n < |source.rows| && n < policy.RowLimit() ==>
          RowsKept(source.rows, n + 1, width, columnBytes, policy).None?)
    && s.rows == RowsOf(kept)
    && s.retainedBytes == columnBytes + TotalSum(kept)
    && s.cellTruncations == AllTruncations(kept)
    && (s.truncated <==> || source.truncated || |s.columns| < |source.columns| || n < |source.rows|
                         || AnyWide(source.rows, n, width) || AllTruncations(kept) != [])
    && Distinct(s.notices) && NoticeSet(s.notices) == NoticesOf(source, policy, s, kept)
    && s.affectedRows == source.affectedRows && s.lastInsertId == source.lastInsertId
  }

  ghost predicate IsSnapshot(source: QueryResult, policy: Policy, s: Snapshot) {
    exists kept :: SnapshotOf(source, policy, s, kept)
  }

  /** What is noted before any column or row is seen. */
  method FirstNotices(source: QueryResult, policy: Policy) returns (notices: seq<ResultNotice>)
    ensures Distinct(notices)
    ensures NoticeSet(notices) == FirstSet(source, policy)
  {
    hide NoticeSet, Distinct;
    NoNotices();
    notices := PushNotice([], policy.TransientNotice());
    if source.truncated {
      notices := PushNotice(notices, DriverReportedTruncation);
    }
    if source.backendNoticesPresent {
      notices := PushNotice(notices, BackendNoticesDiscarded);
    }
  }

  function Clipped(notices: seq<ResultNotice>): seq<ResultNotice> {
    if |notices| > MAX_RESULT_NOTICES then notices[..MAX_RESULT_NOTICES] else notices
  }

  /** What is noted after the last row. */
  method LastNotices(before: seq<ResultNotice>, kept: nat, total: nat, cells: nat, policy: Policy)
    returns (notices: seq<ResultNotice>)
    requires Distinct(before)
    ensures Distinct(notices)
    ensures NoticeSet(notices) == NoticeSet(before) + LastSet(kept, total, cells, policy)
  {
    hide NoticeSet, Distinct;
    notices := before;
    if kept < total {
      notices := PushNotice(notices, RowLimitReached);
    }
    if cells >= policy.CellLimit() && total > kept {
      notices := PushNotice(notices, RedisCellLimitReached);
    }
    NoticesFit(notices);
    notices := Clipped(notices);
  }

  /** `ResultSnapshot::retain`. */
  method Retain(source: QueryResult, policy: Policy) returns (s: Snapshot)
    ensures IsSnapshot(source, policy, s)
  {
    hide NoticeSet, Distinct, ColumnsKept, TotalColumnBytes, RowsKept, CellCount, RowsOf, AllTruncations,
         RowsNotices, StopNotices, AnyWide, TotalSum, FirstSet, LastSet;
    var notices := FirstNotices(source, policy);
    var columns, columnBytes, columnsNoted := RetainColumns(source.columns, notices);
    notices := columnsNoted;
    ColumnsAreAPrefix(source.columns, columns);
    var truncated := source.truncated || |columns| < |source.columns|;
    if |columns| < |source.columns| {
      notices := PushNotice(notices, ColumnLimitReached);
    }
    assert NoticeSet(notices) == FirstSet(source, policy) + ColumnSet(source.columns, columns);
    hide ColumnSet;
    var rows, retainedBytes, retainedCells, cellTruncations, rowsNoted, cut, cells :=
      RetainRows(source.rows, |columns|, columnBytes, policy, notices);
    truncated := truncated || cut;
    RowsCount(cells);
    if |rows| < |source.rows| {
      truncated := true;
    }
    notices := LastNotices(rowsNoted, |rows|, |source.rows|, retainedCells, policy);
    s := Snapshot(columns, rows, source.affectedRows, source.lastInsertId, truncated, notices, retainedBytes,
                  cellTruncations);
    assert SnapshotOf(source, policy, s, cells);
  }

  lemma NoNotices()
    ensures Distinct([]) && NoticeSet([]) == {}
  {
  }

  lemma ColumnsAreAPrefix(source: seq<Column>, columns: seq<Column>)
    requires ColumnsKept(source, columns)
    ensures |columns| <= |source| && TotalColumnBytes(columns) <= MAX_RESULT_BYTES
  {
  }

  lemma RowsCount(kept: seq<seq<RetainedCell>>)
    ensures |RowsOf(kept)| == |kept|
  {
  }
}
