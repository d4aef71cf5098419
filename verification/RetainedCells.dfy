/** The retention of one cell: what is kept, what it counts for, and what is recorded about the cut. */
module RetainedCells {
  import opened Wrappers
  import opened Cells
  import opened CellRetention
  import opened Numbers
  import Json

  datatype CellTruncationKind = TextKind | BytesKind | JsonKind

  datatype CellTruncation = CellTruncation(
    rowIndex: nat, columnIndex: nat, kind: CellTruncationKind, retainedBytes: nat, originalLen: Option<nat>,
    truncated: bool)

  datatype RetainedCell = RetainedCell(
    cell: Cell, retainedBytes: nat, truncation: Option<CellTruncation>, depthTruncated: bool)

  function Noted(row: nat, column: nat, kind: CellTruncationKind, retained: nat, originalLen: nat): CellTruncation {
    CellTruncation(row, column, kind, retained, Some(originalLen), true)
  }

  function NotedIf(cut: bool, truncation: CellTruncation): Option<CellTruncation> {
    if cut then Some(truncation) else None
  }

  // ---- what is kept of a cell ----

  function TextKept(text: string, declared: Option<nat>, cap: nat, row: nat, column: nat): RetainedCell {
    var length := Json.ByteLen(text);
    var originalLen := if declared.Some? && declared.value > length then declared.value else length;
    var preview := Cut(text, cap);
    var retained := Json.ByteLen(preview);
    var cut := declared.Some? || retained < originalLen;
    RetainedCell(if cut then TextPreview(preview, originalLen) else Text(preview), retained,
                 NotedIf(cut, Noted(row, column, TextKind, retained, originalLen)), false)
  }

  function WholeText(cell: Cell, text: string, cap: nat): Option<RetainedCell> {
    if Json.ByteLen(text) > cap then None else Some(RetainedCell(cell, Json.ByteLen(text), None, false))
  }

  function BytesKept(bytes: seq<Json.Byte>, declared: nat, cap: nat, row: nat, column: nat): RetainedCell {
    var originalLen := Max(declared, |bytes|);
    var kept := if |bytes| > cap then bytes[..cap] else bytes;
    RetainedCell(Bytes(kept, originalLen), |kept|,
                 NotedIf(|kept| < originalLen, Noted(row, column, BytesKind, |kept|, originalLen)), false)
  }

  function JsonKept(document: Json.Document, cap: nat, maxDepth: Option<nat>, row: nat, column: nat): RetainedCell {
    var originalLen := Json.ByteLen(Json.Compact(document));
    var tooDeep := maxDepth.Some? && Levels(document) > maxDepth.value;
    var shallow := if maxDepth.Some? then Shallow(document, maxDepth.value) else document;
    var encoded := Json.Compact(shallow);
    var kept := Cut(encoded, cap);
    var cut := tooDeep || Json.ByteLen(kept) < Json.ByteLen(encoded);
    RetainedCell(if cut then JsonPreview(kept, originalLen) else JsonCell(shallow), Json.ByteLen(kept),
                 NotedIf(cut, Noted(row, column, JsonKind, Json.ByteLen(kept), originalLen)), tooDeep)
  }

  function PreviewKept(preview: string, declared: nat, cap: nat, row: nat, column: nat): RetainedCell {
    var originalLen := Max(declared, Json.ByteLen(preview));
    var kept := Cut(preview, cap);
    RetainedCell(JsonPreview(kept, originalLen), Json.ByteLen(kept),
                 Some(Noted(row, column, JsonKind, Json.ByteLen(kept), originalLen)), false)
  }

  /** `retain_cell`, as a value: `None` where a decimal or a date does not fit whole. */
  function Kept(cell: Cell, cap: nat, maxDepth: Option<nat>, row: nat, column: nat): Option<RetainedCell> {
    match cell
    case Text(text) => Some(TextKept(text, None, cap, row, column))
    case TextPreview(preview, originalLen) => Some(TextKept(preview, Some(originalLen), cap, row, column))
    case Decimal(text) => WholeText(cell, text, cap)
    case DateTime(text) => WholeText(cell, text, cap)
    case Bytes(retained, originalLen) => Some(BytesKept(retained, originalLen, cap, row, column))
    case JsonCell(document) => Some(JsonKept(document, cap, maxDepth, row, column))
    case JsonPreview(preview, originalLen) => Some(PreviewKept(preview, originalLen, cap, row, column))
    case _ => Some(RetainedCell(cell, CellBytes(cell), None, false))
  }

  /** `retain_text_cell`. */
  method RetainTextCell(text: string, declared: Option<nat>, cap: nat, row: nat, column: nat)
    returns (kept: RetainedCell)
    ensures kept == TextKept(text, declared, cap, row, column)
  {
    hide Json.ByteLen, Cut;
    var length := Json.ByteLen(text);
    var originalLen := if declared.Some? then declared.value else length;
    if originalLen < length {
      originalLen := length;
    }
    var preview := TruncateUtf8(text, cap);
    var retained := Json.ByteLen(preview);
    var cut := declared.Some? || retained < originalLen;
    return RetainedCell(if cut then TextPreview(preview, originalLen) else Text(preview), retained,
                        NotedIf(cut, Noted(row, column, TextKind, retained, originalLen)), false);
  }

  method RetainJson(document: Json.Document, cap: nat, maxDepth: Option<nat>, row: nat, column: nat)
    returns (kept: RetainedCell)
    requires maxDepth.Some? ==> maxDepth.value >= 1
    ensures kept == JsonKept(document, cap, maxDepth, row, column)
  {
    hide Json.ByteLen, Json.Compact, Cut, Shallow, Levels;
    var originalLen := Json.ByteLen(Json.Compact(document));
    var value, tooDeep := document, false;
    if maxDepth.Some? {
      value, tooDeep := TruncateJsonDepth(document, 1, maxDepth.value);
    }
    var encoded := Json.Compact(value);
    var retained := TruncateUtf8(encoded, cap);
    var cut := tooDeep || Json.ByteLen(retained) < Json.ByteLen(encoded);
    return RetainedCell(if cut then JsonPreview(retained, originalLen) else JsonCell(value), Json.ByteLen(retained),
                        NotedIf(cut, Noted(row, column, JsonKind, Json.ByteLen(retained), originalLen)), tooDeep);
  }

  /** `retain_cell`. */
  method RetainCell(cell: Cell, cap: nat, maxDepth: Option<nat>, row: nat, column: nat)
    returns (kept: Option<RetainedCell>)
    requires maxDepth.Some? ==> maxDepth.value >= 1
    ensures kept == Kept(cell, cap, maxDepth, row, column)
  {
    hide Json.ByteLen, TextKept, JsonKept, Cut;
    match cell {
      case Text(text) =>
        var one := RetainTextCell(text, None, cap, row, column);
        return Some(one);
      case TextPreview(preview, originalLen) =>
        var one := RetainTextCell(preview, Some(originalLen), cap, row, column);
        return Some(one);
      case Decimal(text) =>
        return WholeText(cell, text, cap);
      case DateTime(text) =>
        return WholeText(cell, text, cap);
      case Bytes(bytes, declared) =>
        var originalLen := Max(declared, |bytes|);
        var retained := bytes;
        if |retained| > cap {
          retained := retained[..cap];
        }
        return Some(RetainedCell(Bytes(retained, originalLen), |retained|,
                                 NotedIf(|retained| < originalLen,
                                         Noted(row, column, BytesKind, |retained|, originalLen)), false));
      case JsonCell(document) =>
        var one := RetainJson(document, cap, maxDepth, row, column);
        return Some(one);
      case JsonPreview(preview, declared) =>
        var originalLen := Max(declared, Json.ByteLen(preview));
        var retained := TruncateUtf8(preview, cap);
        return Some(RetainedCell(JsonPreview(retained, originalLen), Json.ByteLen(retained),
                                 Some(Noted(row, column, JsonKind, Json.ByteLen(retained), originalLen)), false));
      case _ =>
        return Some(RetainedCell(cell, CellBytes(cell), None, false));
    }
  }

  // ---- what the kept cell is worth ----

  /** The cell is less than the value it stands for. */
  predicate IsPreview(cell: Cell) {
    cell.TextPreview? || cell.JsonPreview? || (cell.Bytes? && |cell.retained| < cell.originalLen)
  }

  /** A byte cell that does not claim fewer bytes than it has. */
  predicate WellFormed(cell: Cell) {
    cell.Bytes? ==> |cell.retained| <= cell.originalLen
  }

  predicate IsScalar(cell: Cell) {
    cell.Null? || cell.Bool? || cell.Int? || cell.UInt? || cell.Float?
  }

  predicate OriginalLenIs(cell: Cell, originalLen: nat) {
    match cell
    case TextPreview(_, n) => n == originalLen
    case JsonPreview(_, n) => n == originalLen
    case Bytes(_, n) => n == originalLen
    case _ => false
  }

  predicate KindIs(cell: Cell, kind: CellTruncationKind) {
    match kind
    case TextKind => cell.TextPreview?
    case BytesKind => cell.Bytes?
    case JsonKind => cell.JsonPreview?
  }

  /** What holds of every kept cell, whatever it was kept from. */
  ghost predicate KeptRight(cell: Cell, cap: nat, row: nat, column: nat, kept: RetainedCell) {
    && kept.retainedBytes == CellBytes(kept.cell)
    && (!IsScalar(cell) ==> kept.retainedBytes <= cap)
    && (kept.truncation.Some? <==> IsPreview(kept.cell))
    && (kept.depthTruncated ==> kept.truncation.Some?)
    && (kept.truncation.None? && WellFormed(cell) ==> kept.cell == cell)
    && (kept.truncation.Some? ==>
          var t := kept.truncation.value;
          && t.rowIndex == row && t.columnIndex == column && t.truncated && t.originalLen.Some?
          && t.retainedBytes == kept.retainedBytes <= t.originalLen.value
          && OriginalLenIs(kept.cell, t.originalLen.value) && KindIs(kept.cell, t.kind))
  }

  /**
   What a kept cell holds of the source. Text within the cap is kept as it is, and of longer text the longest prefix;
   of bytes the first, as many as the cap allows; of a document that is too deep or too long the longest prefix of
   the text of the document cut at the depth. The original length is that of all there was, or more if so declared.
   */
  ghost predicate HoldsContent(cell: Cell, cap: nat, maxDepth: Option<nat>, kept: Cell) {
    match cell
    case Text(text) =>
      if Json.ByteLen(text) <= cap then kept == Text(text)
      else kept.TextPreview? && kept.originalLen == Json.ByteLen(text) && LongestPrefix(kept.preview, text, cap)
    case TextPreview(preview, declared) =>
      && kept.TextPreview? && kept.originalLen == Max(declared, Json.ByteLen(preview))
      && LongestPrefix(kept.preview, preview, cap)
    case Bytes(bytes, declared) =>
      && kept.Bytes? && kept.originalLen == Max(declared, |bytes|)
      && kept.retained <= bytes && |kept.retained| == Lesser(|bytes|, cap)
    case JsonCell(document) =>
      exists cut ::
        && (if maxDepth.Some? then CutAtDepth(document, maxDepth.value, cut) else cut == document)
        && HoldsDocument(document, cut, cap, maxDepth, kept)
    case JsonPreview(preview, declared) =>
      && kept.JsonPreview? && kept.originalLen == Max(declared, Json.ByteLen(preview))
      && LongestPrefix(kept.preview, preview, cap)
    case _ => kept == cell
  }

  ghost predicate HoldsDocument(document: Json.Document, cut: Json.Document, cap: nat, maxDepth: Option<nat>, kept: Cell) {
    if (maxDepth.Some? ==> Levels(document) <= maxDepth.value) && Json.ByteLen(Json.Compact(document)) <= cap
    then kept == JsonCell(document)
    else
      && kept.JsonPreview? && kept.originalLen == Json.ByteLen(Json.Compact(document))
      && LongestPrefix(kept.preview, Json.Compact(cut), cap)
  }

  lemma TextContent(cell: Cell, text: string, declared: Option<nat>, cap: nat, row: nat, column: nat)
    requires cell == (if declared.Some? then TextPreview(text, declared.value) else Text(text))
    ensures HoldsContent(cell, cap, None, TextKept(text, declared, cap, row, column).cell)
  {
    CutMeaning(text, cap);
    CutWhole(text, cap);
    hide Cut, Json.ByteLen, LongestPrefix;
  }

  lemma DocumentContent(document: Json.Document, cap: nat, maxDepth: Option<nat>, row: nat, column: nat)
    requires maxDepth.Some? ==> maxDepth.value >= 1
    ensures HoldsContent(JsonCell(document), cap, maxDepth, JsonKept(document, cap, maxDepth, row, column).cell)
  {
    hide Cut, Json.ByteLen, Json.Compact, Shallow, Levels, LongestPrefix, CutAtDepth;
    var cut := if maxDepth.Some? then Shallow(document, maxDepth.value) else document;
    if maxDepth.Some? {
      ShallowIsCut(document, maxDepth.value);
      ShallowLevels(document, maxDepth.value);
    }
    CutMeaning(Json.Compact(cut), cap);
    CutWhole(Json.Compact(cut), cap);
    assert HoldsDocument(document, cut, cap, maxDepth, JsonKept(document, cap, maxDepth, row, column).cell);
  }

  /** What `retain_cell` keeps holds the content of the source, as much of it as it may. */
  lemma KeptContent(cell: Cell, cap: nat, maxDepth: Option<nat>, row: nat, column: nat)
    requires maxDepth.Some? ==> maxDepth.value >= 1
    requires Kept(cell, cap, maxDepth, row, column).Some?
    ensures HoldsContent(cell, cap, maxDepth, Kept(cell, cap, maxDepth, row, column).value.cell)
  {
    match cell {
      case Text(text) =>
        TextContent(cell, text, None, cap, row, column);
        hide TextKept;
      case TextPreview(preview, originalLen) =>
        TextContent(cell, preview, Some(originalLen), cap, row, column);
        hide TextKept;
      case JsonCell(document) =>
        DocumentContent(document, cap, maxDepth, row, column);
        hide JsonKept;
      case JsonPreview(preview, declared) =>
        CutMeaning(preview, cap);
        hide Cut, LongestPrefix, Json.ByteLen;
      case _ =>
        hide Json.ByteLen;
    }
  }

  lemma TextKeptRight(cell: Cell, text: string, declared: Option<nat>, cap: nat, row: nat, column: nat)
    requires cell == (if declared.Some? then TextPreview(text, declared.value) else Text(text))
    ensures KeptRight(cell, cap, row, column, TextKept(text, declared, cap, row, column))
  {
    CutMeaning(text, cap);
    CutWhole(text, cap);
    hide Cut, Json.ByteLen;
  }

  lemma JsonKeptRight(document: Json.Document, cap: nat, maxDepth: Option<nat>, row: nat, column: nat)
    requires maxDepth.Some? ==> maxDepth.value >= 1
    ensures KeptRight(JsonCell(document), cap, row, column, JsonKept(document, cap, maxDepth, row, column))
  {
    hide Cut, Json.ByteLen, Json.Compact, Shallow, Levels;
    var shallow := if maxDepth.Some? then Shallow(document, maxDepth.value) else document;
    if maxDepth.Some? {
      ShallowIsShorter(document, maxDepth.value);
      ShallowLevels(document, maxDepth.value);
    }
    CutMeaning(Json.Compact(shallow), cap);
    CutWhole(Json.Compact(shallow), cap);
  }

  lemma PreviewKeptRight(preview: string, declared: nat, cap: nat, row: nat, column: nat)
    ensures KeptRight(JsonPreview(preview, declared), cap, row, column, PreviewKept(preview, declared, cap, row, column))
  {
    CutMeaning(preview, cap);
    CutWhole(preview, cap);
    hide Cut, Json.ByteLen;
  }

  /**
   For every cell, cap and depth: the count is that of the kept cell and within the cap unless the cell is a
   number, a truth value or null; a cut is recorded exactly where a preview is kept, with an original length
   no shorter than what is kept; a cell that is not cut is kept as it was; and of one that is cut what is kept is
   the beginning, as long as it may be.
   */
  lemma KeptMeaning(cell: Cell, cap: nat, maxDepth: Option<nat>, row: nat, column: nat)
    requires maxDepth.Some? ==> maxDepth.value >= 1
    ensures Kept(cell, cap, maxDepth, row, column).None? <==>
            (cell.Decimal? || cell.DateTime?) && Json.ByteLen(cell.text) > cap
    ensures Kept(cell, cap, maxDepth, row, column).Some? ==>
              && KeptRight(cell, cap, row, column, Kept(cell, cap, maxDepth, row, column).value)
              && HoldsContent(cell, cap, maxDepth, Kept(cell, cap, maxDepth, row, column).value.cell)
  {
    if Kept(cell, cap, maxDepth, row, column).Some? {
      KeptContent(cell, cap, maxDepth, row, column);
    }
    hide HoldsContent;
    match cell {
      case Text(text) =>
        TextKeptRight(cell, text, None, cap, row, column);
        hide TextKept, KeptRight;
      case TextPreview(preview, originalLen) =>
        TextKeptRight(cell, preview, Some(originalLen), cap, row, column);
        hide TextKept, KeptRight;
      case JsonCell(document) =>
        JsonKeptRight(document, cap, maxDepth, row, column);
        hide JsonKept, KeptRight;
      case JsonPreview(preview, declared) =>
        PreviewKeptRight(preview, declared, cap, row, column);
        hide PreviewKept, KeptRight;
      case _ =>
        hide Json.ByteLen;
    }
  }
}
