/** Decoding a Redis reply into rows of one cell under the shared node and byte budget. */
module RedisRows {
  import opened Wrappers
  import opened Decimals
  import opened Limits
  import opened Cells
  import opened Resp
  import opened Numbers
  import RespMeter
  import Json

  datatype ScalarMeasure = ScalarMeasure(retainedBytes: nat, previewable: bool)

  /** `scalar_measure`; `None` where the bound on a big number leaves the machine word. */
  function MeasureOf(v: Value): Option<ScalarMeasure>
    requires !IsComposite(v)
  {
    match v
    case Nil => Some(ScalarMeasure(4, false))
    case Int(number) => Some(ScalarMeasure(|SignedText(number)|, false))
    case BulkText(text) => Some(ScalarMeasure(Json.ByteLen(text), true))
    case BulkBytes(bytes) => Some(ScalarMeasure(|bytes|, true))
    case SimpleString(text) => Some(ScalarMeasure(Json.ByteLen(text), true))
    case Okay => Some(ScalarMeasure(2, true))
    case Double(float) => Some(ScalarMeasure(FloatBytes(float), false))
    case Boolean(value) => Some(ScalarMeasure(if value then 4 else 5, false))
    case VerbatimString(text) => Some(ScalarMeasure(Json.ByteLen(text), true))
    case BigNumber(number) =>
      var bound := UpperBoundFromBits(Bits(Magnitude(number)));
      if bound.None? then None else Some(ScalarMeasure(bound.value, false))
    case ServerError => Some(ScalarMeasure(20, false))
    case Unsupported => Some(ScalarMeasure(24, false))
  }

  // ---- what a budget is for ----

  /** Only text and bytes are kept when they do not fit: they can still be cut to a preview. */
  predicate Previewable(v: Value) {
    v.BulkText? || v.BulkBytes? || v.SimpleString? || v.Okay? || v.VerbatimString?
  }

  function ChargedNodes(v: Value): nat {
    SizeOf(v).nodes
  }

  function ChargedBytes(v: Value): nat {
    if IsComposite(v) then SizeOf(v).bytes
    else if v.BigNumber? then BigNumberBytes(v.number) - 2
    else MeasureOf(v).value.retainedBytes
  }

  /** The value may be kept whole where the budget has room for it. */
  predicate Whole(v: Value) {
    ChargedBytes(v) <= MAX_REDIS_CELL_BYTES && (IsComposite(v) ==> SizeOf(v).height <= MAX_REDIS_DEPTH)
  }

  function TotalNodes(items: seq<Value>): nat {
    if items == [] then 0 else TotalNodes(items[..|items| - 1]) + ChargedNodes(items[|items| - 1])
  }

  function TotalBytes(items: seq<Value>): nat {
    if items == [] then 0 else TotalBytes(items[..|items| - 1]) + ChargedBytes(items[|items| - 1])
  }

  /** Every one of these values is decoded completely: each may be kept whole, and together they fit. */
  predicate AllWhole(items: seq<Value>) {
    && (forall i | 0 <= i < |items| :: Whole(items[i]))
    && TotalNodes(items) <= MAX_REDIS_CELLS
    && TotalBytes(items) <= MAX_RESULT_BYTES
  }

  lemma TotalsExtend(items: seq<Value>, i: nat)
    requires i < |items|
    ensures TotalNodes(items[..i + 1]) == TotalNodes(items[..i]) + ChargedNodes(items[i])
    ensures TotalBytes(items[..i + 1]) == TotalBytes(items[..i]) + ChargedBytes(items[i])
  {
    assert items[..i + 1][..i] == items[..i];
  }

  /** A prefix of values that all fit fits. */
  lemma {:induction false} PrefixIsWhole(items: seq<Value>, i: nat)
    requires i <= |items| && AllWhole(items)
    ensures AllWhole(items[..i])
    decreases |items|
  {
    hide ChargedNodes, ChargedBytes, Whole;
    if i == |items| {
      assert items[..i] == items;
    } else {
      var shorter := items[..|items| - 1];
      PrefixIsWhole(shorter, i);
      assert shorter[..i] == items[..i];
    }
  }

  lemma BigNumberMeasure(number: int)
    ensures MeasureOf(BigNumber(number)).Some? ==>
              MeasureOf(BigNumber(number)).value.retainedBytes == BigNumberBytes(number) - 2
    ensures MeasureOf(BigNumber(number)).None? ==> !Whole(BigNumber(number))
  {
    hide Bits;
    UpperBoundExists(Bits(Magnitude(number)));
  }

  // ---- the budget ----

  datatype DecodedCell = DecodedCell(cell: Cell, stopAfter: bool)

  class DecodeBudget {
    var remainingNodes: nat
    var remainingBytes: nat
    var truncated: bool

    predicate Valid()
      reads this
    {
      remainingNodes <= MAX_REDIS_CELLS && remainingBytes <= MAX_RESULT_BYTES
    }

    predicate Room(v: Value)
      reads this
    {
      Whole(v) && ChargedNodes(v) <= remainingNodes && ChargedBytes(v) <= remainingBytes
    }

    constructor ()
      ensures Valid() && !truncated
      ensures remainingNodes == MAX_REDIS_CELLS && remainingBytes == MAX_RESULT_BYTES
    {
      remainingNodes := MAX_REDIS_CELLS;
      remainingBytes := MAX_RESULT_BYTES;
      truncated := false;
    }

    /** `decode_composite`. */
    method DecodeComposite(v: Value) returns (decoded: Option<DecodedCell>)
      requires Valid() && IsComposite(v)
      modifies this
      ensures Valid()
      ensures decoded.Some? <==> old(Room(v))
      ensures decoded.Some? ==> && decoded.value == DecodedCell(CellOf(v), false) && truncated == old(truncated)
                                && remainingNodes == old(remainingNodes) - ChargedNodes(v)
                                && remainingBytes == old(remainingBytes) - ChargedBytes(v)
      ensures decoded.None? ==> truncated
    {
      hide SizeOf, CellOf, Json.TextBytes, DocumentOf;
      var limit := if remainingBytes < MAX_REDIS_CELL_BYTES then remainingBytes else MAX_REDIS_CELL_BYTES;
      var measure := RespMeter.MeasureComposite(v, remainingNodes, limit);
      if measure.None? {
        truncated := true;
        return None;
      }
      remainingNodes := SaturatingSub(remainingNodes, measure.value.nodes);
      remainingBytes := SaturatingSub(remainingBytes, measure.value.encodedBytes);
      return Some(DecodedCell(CellOf(v), false));
    }

    /** `decode_scalar`: kept whole where there is room, cut short where it can be, and refused otherwise. */
    method DecodeScalar(v: Value) returns (decoded: Option<DecodedCell>)
      requires Valid() && !IsComposite(v)
      modifies this
      ensures Valid()
      ensures decoded.Some? <==> old(Room(v)) || (old(remainingNodes) >= 1 && Previewable(v))
      ensures decoded.Some? ==> && decoded.value == DecodedCell(CellOf(v), !old(Room(v)))
                                && remainingNodes == old(remainingNodes) - ChargedNodes(v)
      ensures old(Room(v)) ==> && remainingBytes == old(remainingBytes) - ChargedBytes(v)
                               && truncated == old(truncated)
      ensures !old(Room(v)) ==> truncated && (decoded.Some? ==> remainingBytes == 0)
    {
      hide CellOf, Bits, BigNumberBytes, Json.Utf8, DecimalText, ScalarBytes;
      if v.BigNumber? {
        BigNumberMeasure(v.number);
      }
      if remainingNodes < 1 {
        truncated := true;
        return None;
      }
      var measure := MeasureOf(v);
      if measure.None? {
        truncated := true;
        return None;
      }
      var retained := measure.value.retainedBytes;
      var crosses := retained > MAX_REDIS_CELL_BYTES || retained > remainingBytes;
      if crosses && !measure.value.previewable {
        truncated := true;
        return None;
      }
      remainingNodes := remainingNodes - 1;
      if crosses {
        remainingBytes := 0;
        truncated := true;
      } else {
        remainingBytes := SaturatingSub(remainingBytes, retained);
      }
      return Some(DecodedCell(CellOf(v), crosses));
    }

    /** `decode_value_cell`. */
    method DecodeValueCell(v: Value) returns (decoded: Option<DecodedCell>)
      requires Valid()
      modifies this
      ensures Valid()
      ensures decoded.Some? <==> old(Room(v)) || (old(remainingNodes) >= 1 && Previewable(v))
      ensures decoded.Some? ==> && decoded.value == DecodedCell(CellOf(v), !old(Room(v)))
                                && remainingNodes == old(remainingNodes) - ChargedNodes(v)
      ensures old(Room(v)) ==> && remainingBytes == old(remainingBytes) - ChargedBytes(v)
                               && truncated == old(truncated)
      ensures !old(Room(v)) ==> truncated
      ensures Previewable(v) ==> ChargedNodes(v) == 1
    {
      if Previewable(v) {
        ScalarNode(v);
      }
      hide CellOf, ChargedNodes, ChargedBytes, Whole;
      if IsComposite(v) {
        decoded := DecodeComposite(v);
      } else {
        decoded := DecodeScalar(v);
      }
    }
  }

  /** The values a reply puts in rows: the items of an array, or the reply itself. */
  function ItemsOf(reply: Value): seq<Value> {
    if reply.Array? then reply.items else [reply]
  }

  /**
   The rows of a reply: one cell for each value of a prefix, within the limit. The prefix is as long as the
   values can be kept whole, and one longer where the next value can be cut short.
   */
  ghost predicate RowsAreAPrefix(items: seq<Value>, rowLimit: nat, rows: seq<seq<Cell>>) {
    var k := |rows|;
    && k <= |items| && k <= rowLimit
    && (forall i | 0 <= i < k :: rows[i] == [CellOf(items[i])])
    && TotalNodes(items[..k]) <= MAX_REDIS_CELLS
    && (|| (AllWhole(items[..k])
            && (k == |items| || k == rowLimit
                || (&& !AllWhole(items[..k + 1])
                    && !(Previewable(items[k]) && TotalNodes(items[..k]) < MAX_REDIS_CELLS))))
        || (k > 0 && AllWhole(items[..k - 1]) && !AllWhole(items[..k]) && Previewable(items[k - 1])))
  }

  /** What `value_rows` promises about a reply, its rows and its flag. */
  ghost predicate Decoded(reply: Value, rowLimit: nat, rows: seq<seq<Cell>>, truncated: bool) {
    && RowsAreAPrefix(ItemsOf(reply), rowLimit, rows)
    && (truncated <==> !(|ItemsOf(reply)| <= rowLimit && AllWhole(ItemsOf(reply))))
    && (!truncated ==> |rows| == |ItemsOf(reply)|)
  }

  /** `AllWhole` fails for good at the first value it fails for. */
  lemma NotWholeStays(items: seq<Value>, i: nat)
    requires i <= |items| && !AllWhole(items[..i])
    ensures !AllWhole(items)
  {
    if AllWhole(items) {
      PrefixIsWhole(items, i);
    }
  }

  /** One more value is whole exactly when what the prefix leaves of the budget has room for it. */
  lemma OneMoreWhole(items: seq<Value>, i: nat)
    requires i < |items| && AllWhole(items[..i])
    ensures AllWhole(items[..i + 1])
       <==> && Whole(items[i]) && ChargedNodes(items[i]) <= MAX_REDIS_CELLS - TotalNodes(items[..i])
            && ChargedBytes(items[i]) <= MAX_RESULT_BYTES - TotalBytes(items[..i])
  {
    hide ChargedNodes, ChargedBytes, Whole;
    TotalsExtend(items, i);
    var longer := items[..i + 1];
    assert longer[i] == items[i];
    assert forall j | 0 <= j < i :: longer[j] == items[..i][j];
  }

  lemma ScalarNode(v: Value)
    requires Previewable(v)
    ensures ChargedNodes(v) == 1
  {
    hide ScalarBytes;
  }

  /** The array arm of `value_rows`. */
  method ArrayRows(items: seq<Value>, rowLimit: nat) returns (rows: seq<seq<Cell>>, truncated: bool)
    ensures Decoded(Array(items), rowLimit, rows, truncated)
  {
    hide ChargedNodes, ChargedBytes, Whole, AllWhole, CellOf, Previewable, TotalNodes, TotalBytes;
    assert AllWhole(items[..0]) && TotalNodes(items[..0]) == 0 && TotalBytes(items[..0]) == 0 by {
      NothingIsWhole(items);
    }
    var budget := new DecodeBudget();
    truncated := |items| > rowLimit;
    rows := [];
    var i := 0;
    var limit := if |items| < rowLimit then |items| else rowLimit;
    while i < limit
      invariant 0 <= i <= limit && |rows| == i
      invariant forall j | 0 <= j < i :: rows[j] == [CellOf(items[j])]
      invariant fresh(budget) && budget.Valid() && !budget.truncated && AllWhole(items[..i])
      invariant budget.remainingNodes == MAX_REDIS_CELLS - TotalNodes(items[..i])
      invariant budget.remainingBytes == MAX_RESULT_BYTES - TotalBytes(items[..i])
    {
      TotalsExtend(items, i);
      OneMoreWhole(items, i);
      var decoded := budget.DecodeValueCell(items[i]);
      if decoded.None? {
        NotWholeStays(items, i + 1);
        return rows, true;
      }
      rows := rows + [[decoded.value.cell]];
      if decoded.value.stopAfter {
        NotWholeStays(items, i + 1);
        assert items[..i + 1 - 1] == items[..i];
        return rows, true;
      }
      i := i + 1;
    }
    if i == |items| {
      assert items[..i] == items;
    }
    truncated := truncated || budget.truncated;
  }

  lemma NothingIsWhole(items: seq<Value>)
    ensures AllWhole(items[..0]) && TotalNodes(items[..0]) == 0 && TotalBytes(items[..0]) == 0
  {
  }

  /** `value_rows`. */
  method ValueRows(reply: Value, rowLimit: nat) returns (rows: seq<seq<Cell>>, truncated: bool)
    ensures Decoded(reply, rowLimit, rows, truncated)
  {
    if reply.Array? {
      rows, truncated := ArrayRows(reply.items, rowLimit);
      return;
    }
    hide ChargedNodes, ChargedBytes, Whole, AllWhole, CellOf, Previewable, TotalNodes, TotalBytes;
    ghost var items := [reply];
    NothingIsWhole(items);
    OneMoreWhole(items, 0);
    TotalsExtend(items, 0);
    assert items[..1] == items;
    if rowLimit == 0 {
      return [], true;
    }
    var budget := new DecodeBudget();
    var decoded := budget.DecodeValueCell(reply);
    if decoded.None? {
      return [], true;
    }
    return [[decoded.value.cell]], decoded.value.stopAfter || budget.truncated;
  }

  lemma CompositeRetention(v: Value)
    requires IsComposite(v)
    ensures CellBytes(CellOf(v)) <= ChargedBytes(v)
  {
    ChargeBoundsText(v);
    hide Json.Utf8, Json.Compact, SizeOf, DocumentsOf, EntryDocumentsOf;
    assert CellOf(v).JsonCell? && DocumentOf(v) == CellOf(v).document;
  }

  lemma NamedRetention()
    ensures Json.ByteLen("[redis-server-error]") == 20 && Json.ByteLen("[unsupported-resp-value]") == 24
    ensures Json.ByteLen("OK") == 2
  {
    hide Json.Utf8;
    Json.Utf8Ascii("[redis-server-error]");
    Json.Utf8Ascii("[unsupported-resp-value]");
    Json.Utf8Ascii("OK");
  }

  lemma PlainRetention(v: Value)
    requires !IsComposite(v) && !v.BigNumber? && !v.Okay? && !v.ServerError? && !v.Unsupported?
    ensures CellBytes(CellOf(v)) <= ChargedBytes(v)
       <==> !((v.Boolean? && v.value) || (v.Double? && Json.ByteLen(v.float.display) > FloatBytes(v.float)))
  {
    hide Json.Utf8, DecimalText, SizeOf, BigNumberBytes, Json.ByteLen;
  }

  lemma NamedCellRetention(v: Value)
    requires v.Okay? || v.ServerError? || v.Unsupported?
    ensures CellBytes(CellOf(v)) <= ChargedBytes(v)
  {
    NamedRetention();
    hide Json.Utf8, DecimalText, SizeOf, BigNumberBytes, Json.ByteLen;
  }

  lemma NumberRetention(number: int)
    ensures CellBytes(CellOf(BigNumber(number))) <= ChargedBytes(BigNumber(number))
  {
    SignedTextBytes(number);
    BigNumberBounded(number);
    hide Json.Utf8, DecimalText, SizeOf, BigNumberBytes, Json.ByteLen;
  }

  /**
   What a value is charged covers what `scalar_retained_bytes` counts for its cell, except for `true`, charged
   four and counted five, and for a double whose display is longer than its JSON.
   */
  lemma ChargeCoversRetention(v: Value)
    ensures CellBytes(CellOf(v)) <= ChargedBytes(v)
       <==> !((v.Boolean? && v.value) || (v.Double? && Json.ByteLen(v.float.display) > FloatBytes(v.float)))
  {
    if IsComposite(v) {
      CompositeRetention(v);
      hide CellOf, ChargedBytes, CellBytes;
    } else if v.BigNumber? {
      NumberRetention(v.number);
      hide CellOf, ChargedBytes, CellBytes;
    } else if v.Okay? || v.ServerError? || v.Unsupported? {
      NamedCellRetention(v);
      hide CellOf, ChargedBytes, CellBytes;
    } else {
      PlainRetention(v);
      hide CellOf, ChargedBytes, CellBytes;
    }
  }
}
