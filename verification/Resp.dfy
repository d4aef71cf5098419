/**
 Decoded RESP replies, the cells and JSON documents they become, and the measure that predicts the size of
 that JSON without building it.
 */
module Resp {
  import opened Decimals
  import opened Cells
  import opened Limits
  import opened Numbers
  import Json

  /** A bulk string is split by whether its bytes are UTF-8: `BulkText` holds the decoded text. */
  datatype Value =
    | Nil
    | Int(number: int)
    | BulkText(text: string)
    | BulkBytes(bytes: seq<Json.Byte>)
    | SimpleString(text: string)
    | Okay
    | Double(float: FloatText)
    | Boolean(value: bool)
    | Array(items: seq<Value>)
    | SetOf(items: seq<Value>)
    | Map(entries: seq<Entry>)
    | Attribute(data: Value, attributes: seq<Entry>)
    | VerbatimString(text: string)
    | BigNumber(number: int)
    | Push(items: seq<Value>)
    | ServerError
    | Unsupported

  datatype Entry = Entry(key: Value, value: Value)

  predicate IsComposite(v: Value) {
    v.Array? || v.Map? || v.Attribute? || v.SetOf? || v.Push?
  }

  // ---- what a reply becomes ----

  /** `value_cell_complete`. */
  function CellOf(v: Value): Cell
    decreases v, 0
  {
    match v
    case Nil => Cell.Null
    case Int(number) => Cell.Int(number)
    case BulkText(text) => Text(text)
    case BulkBytes(bytes) => Bytes(bytes, |bytes|)
    case SimpleString(text) => Text(text)
    case Okay => Text("OK")
    case Double(float) => Float(float)
    case Boolean(value) => Bool(value)
    case Array(items) => JsonCell(Json.Array(DocumentsOf(items)))
    case SetOf(items) => JsonCell(Json.Array(DocumentsOf(items)))
    case Map(entries) => JsonCell(Json.Array(EntryDocumentsOf(entries)))
    case Attribute(data, attributes) =>
      JsonCell(Json.Object([Json.Member("attributes", Json.Array(EntryDocumentsOf(attributes))),
                            Json.Member("data", DocumentOf(data))]))
    case VerbatimString(text) => Text(text)
    case BigNumber(number) => Decimal(SignedText(number))
    case Push(items) =>
      JsonCell(Json.Object([Json.Member("data", Json.Array(DocumentsOf(items))),
                            Json.Member("type", Json.String("push"))]))
    case ServerError => Text("[redis-server-error]")
    case Unsupported => Text("[unsupported-resp-value]")
  }

  function Preview(preview: string, originalLen: nat): Json.Document {
    Json.Object([Json.Member("original_len", Json.Number(DecimalText(originalLen))),
                 Json.Member("preview", Json.String(preview)),
                 Json.Member("truncated", Json.Bool(true))])
  }

  function CellDocument(cell: Cell): Json.Document {
    match cell
    case Null => Json.Null
    case Bool(value) => Json.Bool(value)
    case Int(number) => Json.Number(SignedText(number))
    case UInt(count) => Json.Number(DecimalText(count))
    case Float(float) => if float.json.Some? then Json.Number(float.json.value) else Json.Null
    case Decimal(text) => Json.String(text)
    case Text(text) => Json.String(text)
    case DateTime(text) => Json.String(text)
    case TextPreview(preview, originalLen) => Preview(preview, originalLen)
    case Bytes(retained, originalLen) =>
      Json.Object([Json.Member("base64", Json.String(Json.Base64(retained))),
                   Json.Member("original_len", Json.Number(DecimalText(originalLen))),
                   Json.Member("truncated", Json.Bool(|retained| < originalLen))])
    case JsonCell(document) => document
    case JsonPreview(preview, originalLen) => Preview(preview, originalLen)
  }

  /** `value_json_complete`. */
  function DocumentOf(v: Value): Json.Document
    decreases v, 1
  {
    CellDocument(CellOf(v))
  }

  function DocumentsOf(items: seq<Value>): seq<Json.Document>
    decreases items
  {
    if items == [] then [] else [DocumentOf(items[0])] + DocumentsOf(items[1..])
  }

  function EntryDocument(entry: Entry): Json.Document
    decreases entry
  {
    Json.Object([Json.Member("key", DocumentOf(entry.key)), Json.Member("value", DocumentOf(entry.value))])
  }

  function EntryDocumentsOf(entries: seq<Entry>): seq<Json.Document>
    decreases entries
  {
    if entries == [] then [] else [EntryDocument(entries[0])] + EntryDocumentsOf(entries[1..])
  }

  // ---- the quantities a budget limits ----

  /**
   What a reply weighs: the number of its values, its levels, the bytes charged for it, whether the bound on
   each of its big numbers stays within the machine word, and whether it has no big number at all.
   */
  datatype Size = Size(nodes: nat, height: nat, bytes: nat, bounded: bool, exact: bool)

  const NOTHING := Size(0, 0, 0, true, true)

  function Plus(a: Size, b: Size): Size {
    Size(a.nodes + b.nodes, Max(a.height, b.height), a.bytes + b.bytes, a.bounded && b.bounded, a.exact && b.exact)
  }

  /** A value with `extra` bytes of its own around its parts. */
  function Around(extra: nat, parts: Size): Size {
    Size(1 + parts.nodes, 1 + parts.height, extra + parts.bytes, parts.bounded, parts.exact)
  }

  /** Brackets and separators. */
  function Gaps(n: nat): nat {
    2 + if n == 0 then 0 else n - 1
  }

  function FloatBytes(float: FloatText): nat {
    if float.json.Some? then Json.ByteLen(float.json.value) else 4
  }

  function BytesBytes(length: nat): nat {
    47 + (length + 2) / 3 * 4 + |DecimalText(length)|
  }

  function Magnitude(number: int): nat {
    if number < 0 then -number else number
  }

  function BigNumberBytes(number: int): nat {
    var bits := Bits(Magnitude(number));
    if bits == 0 then 4
    else (bits * LOG10_2_UPPER_NUMERATOR + (LOG10_2_UPPER_DENOMINATOR - 1)) / LOG10_2_UPPER_DENOMINATOR + 3
  }

  predicate Bounded(number: int) {
    UpperBoundFromBits(Bits(Magnitude(number))).Some?
  }

  function ScalarBytes(v: Value): nat
    requires !IsComposite(v)
  {
    match v
    case Nil => 4
    case Int(number) => |SignedText(number)|
    case BulkText(text) => 2 + Json.StringLength(text)
    case BulkBytes(bytes) => BytesBytes(|bytes|)
    case SimpleString(text) => 2 + Json.StringLength(text)
    case Okay => 4
    case Double(float) => FloatBytes(float)
    case Boolean(value) => if value then 4 else 5
    case VerbatimString(text) => 2 + Json.StringLength(text)
    case BigNumber(number) => BigNumberBytes(number)
    case ServerError => 2 + Json.StringLength("[redis-server-error]")
    case Unsupported => 2 + Json.StringLength("[unsupported-resp-value]")
  }

  function SizeOf(v: Value): Size
    decreases v
  {
    match v
    case Array(items) => Around(Gaps(|items|), SizeOfAll(items))
    case SetOf(items) => Around(Gaps(|items|), SizeOfAll(items))
    case Push(items) => Around(23 + Gaps(|items|), SizeOfAll(items))
    case Map(entries) => Around(Gaps(|entries|), SizeOfEntries(entries))
    case Attribute(data, attributes) =>
      Around(23 + Gaps(|attributes|), Plus(SizeOfEntries(attributes), SizeOf(data)))
    case BigNumber(number) => Size(1, 1, BigNumberBytes(number), Bounded(number), false)
    case _ => Size(1, 1, ScalarBytes(v), true, true)
  }

  function SizeOfAll(items: seq<Value>): Size
    decreases items
  {
    if items == [] then NOTHING else Plus(SizeOf(items[0]), SizeOfAll(items[1..]))
  }

  function SizeOfEntry(entry: Entry): Size
    decreases entry
  {
    var both := Plus(SizeOf(entry.key), SizeOf(entry.value));
    both.(bytes := 17 + both.bytes)
  }

  function SizeOfEntries(entries: seq<Entry>): Size
    decreases entries
  {
    if entries == [] then NOTHING else Plus(SizeOfEntry(entries[0]), SizeOfEntries(entries[1..]))
  }

  // ---- the charge bounds the text ----

  ghost predicate Bounds(actual: nat, charged: nat, exact: bool) {
    actual <= charged && (exact ==> actual == charged)
  }

  lemma Widened(extra: nat, actual: nat, charged: nat, exact: bool)
    requires Bounds(actual, charged, exact)
    ensures Bounds(extra + actual, extra + charged, exact)
  {
  }

  lemma AsciiName(text: string)
    requires forall i | 0 <= i < |text| :: Json.Plain(text[i])
    ensures Json.StringLength(text) == |text| && Json.ByteLen(text) == |text|
  {
    Json.PlainLength(text);
    Json.Utf8Ascii(text);
  }

  lemma Names()
    ensures Json.StringLength("base64") == 6 && Json.StringLength("original_len") == 12
    ensures Json.StringLength("truncated") == 9 && Json.StringLength("attributes") == 10
    ensures Json.StringLength("data") == 4 && Json.StringLength("type") == 4 && Json.StringLength("push") == 4
    ensures Json.StringLength("key") == 3 && Json.StringLength("value") == 5 && Json.StringLength("OK") == 2
    ensures Json.ByteLen("null") == 4 && Json.ByteLen("true") == 4 && Json.ByteLen("false") == 5
  {
    hide Json.StringLength, Json.Utf8;
    AsciiName("base64");
    AsciiName("original_len");
    AsciiName("truncated");
    AsciiName("attributes");
    AsciiName("data");
    AsciiName("type");
    AsciiName("push");
    AsciiName("key");
    AsciiName("value");
    AsciiName("OK");
    AsciiName("null");
    AsciiName("true");
    AsciiName("false");
  }

  lemma DigitsPlain(n: nat)
    ensures forall i | 0 <= i < |DecimalText(n)| :: Json.Plain(DecimalText(n)[i])
  {
    DecimalReadsBack(n);
    hide DecimalText;
    forall i | 0 <= i < |DecimalText(n)|
      ensures Json.Plain(DecimalText(n)[i])
    {
      assert DecimalText(n)[i] in DecimalText(n);
    }
  }

  lemma SignedTextBytes(number: int)
    ensures Json.ByteLen(SignedText(number)) == |SignedText(number)|
    ensures Json.StringLength(SignedText(number)) == |SignedText(number)|
  {
    DigitsPlain(Magnitude(number));
    hide DecimalText, Json.StringLength, Json.Utf8;
    AsciiName(SignedText(number));
  }

  lemma BigNumberBounded(number: int)
    ensures 2 + |SignedText(number)| <= BigNumberBytes(number)
  {
    var magnitude := Magnitude(number);
    var bits := Bits(magnitude);
    BitsMeaning(magnitude);
    if bits > 0 {
      var digits := (bits * LOG10_2_UPPER_NUMERATOR + (LOG10_2_UPPER_DENOMINATOR - 1)) / LOG10_2_UPPER_DENOMINATOR;
      assert bits * LOG10_2_UPPER_NUMERATOR <= digits * LOG10_2_UPPER_DENOMINATOR;
      TwoPowerFits(bits, digits);
      hide Pow;
      DecimalFits(magnitude, digits);
    }
  }

  /** Below any limit a cell has, the bound on a big number never leaves the machine word. */
  lemma SmallIsBounded(number: int)
    requires BigNumberBytes(number) <= MAX_REDIS_CELL_BYTES
    ensures Bounded(number)
  {
    hide Bits;
    UpperBoundExists(Bits(Magnitude(number)));
  }

  lemma PairLength(a: Json.Member, b: Json.Member)
    ensures Json.TextBytes(Json.Object([a, b]))
         == 9 + Json.StringLength(a.name) + Json.TextBytes(a.value) + Json.StringLength(b.name) + Json.TextBytes(b.value)
  {
    hide Json.Compact, Json.StringLength, Json.Utf8;
    Json.ObjectLength([a, b]);
    assert [a, b][1..] == [b] && [b][1..] == [];
    assert Json.MemberTotal([b]) == 3 + Json.StringLength(b.name) + Json.TextBytes(b.value) + Json.MemberTotal([]);
  }

  lemma TripleLength(a: Json.Member, b: Json.Member, c: Json.Member)
    ensures Json.TextBytes(Json.Object([a, b, c]))
         == 13 + Json.StringLength(a.name) + Json.TextBytes(a.value) + Json.StringLength(b.name) + Json.TextBytes(b.value)
            + Json.StringLength(c.name) + Json.TextBytes(c.value)
  {
    hide Json.Compact, Json.StringLength, Json.Utf8;
    Json.ObjectLength([a, b, c]);
    assert [a, b, c][1..] == [b, c] && [b, c][1..] == [c] && [c][1..] == [];
    assert Json.MemberTotal([c]) == 3 + Json.StringLength(c.name) + Json.TextBytes(c.value) + Json.MemberTotal([]);
    assert Json.MemberTotal([b, c]) == 3 + Json.StringLength(b.name) + Json.TextBytes(b.value) + Json.MemberTotal([c]);
  }

  lemma ArrayText(documents: seq<Json.Document>)
    ensures Json.TextBytes(Json.Array(documents)) == Gaps(|documents|) + Json.CompactTotal(documents)
  {
    hide Json.Utf8, Json.Compact, Json.CompactTotal;
    Json.ArrayLength(documents);
  }

  lemma StringDocument(text: string)
    ensures Json.TextBytes(Json.String(text)) == 2 + Json.StringLength(text)
  {
    Json.QuotedLength(text);
  }

  lemma NumberDocument(text: string)
    ensures Json.TextBytes(Json.Number(text)) == Json.ByteLen(text)
    ensures Json.TextBytes(Json.Null) == Json.ByteLen("null")
    ensures Json.TextBytes(Json.Bool(true)) == Json.ByteLen("true")
    ensures Json.TextBytes(Json.Bool(false)) == Json.ByteLen("false")
  {
  }

  lemma BytesDocumentIs(bytes: seq<Json.Byte>, n: nat)
    requires n == |bytes|
    ensures CellDocument(Bytes(bytes, n))
         == Json.Object([Json.Member("base64", Json.String(Json.Base64(bytes))),
                         Json.Member("original_len", Json.Number(DecimalText(n))),
                         Json.Member("truncated", Json.Bool(false))])
    ensures BytesBytes(n) == 47 + (n + 2) / 3 * 4 + |DecimalText(n)|
  {
    hide Json.Base64, DecimalText;
  }

  lemma BytesDocumentLength(bytes: seq<Json.Byte>)
    ensures Json.TextBytes(CellDocument(Bytes(bytes, |bytes|))) == BytesBytes(|bytes|)
  {
    var n := |bytes|;
    var base64 := Json.Base64(bytes);
    var first := Json.Member("base64", Json.String(base64));
    var second := Json.Member("original_len", Json.Number(DecimalText(n)));
    var third := Json.Member("truncated", Json.Bool(false));
    BytesDocumentIs(bytes, n);
    hide *;
    Json.Base64Length(bytes);
    Json.Base64Plain(bytes);
    DigitsPlain(n);
    Names();
    AsciiName(base64);
    StringDocument(base64);
    AsciiName(DecimalText(n));
    NumberDocument(DecimalText(n));
    TripleLength(first, second, third);
  }

  lemma ScalarTextBound(v: Value)
    requires !IsComposite(v)
    ensures Bounds(Json.TextBytes(DocumentOf(v)), ScalarBytes(v), !v.BigNumber?)
  {
    Names();
    hide Json.Utf8, Json.StringLength, Json.Compact, DecimalText, BytesBytes, BigNumberBytes, Json.TextBytes;
    match v {
      case Int(number) =>
        SignedTextBytes(number);
        NumberDocument(SignedText(number));
      case BulkBytes(bytes) => BytesDocumentLength(bytes);
      case BigNumber(number) =>
        SignedTextBytes(number);
        BigNumberBounded(number);
        StringDocument(SignedText(number));
      case BulkText(text) => StringDocument(text);
      case SimpleString(text) => StringDocument(text);
      case VerbatimString(text) => StringDocument(text);
      case Okay => StringDocument("OK");
      case ServerError => StringDocument("[redis-server-error]");
      case Unsupported => StringDocument("[unsupported-resp-value]");
      case Double(float) => NumberDocument(if float.json.Some? then float.json.value else "");
      case _ => NumberDocument("");
    }
  }

  lemma {:induction false} ItemsTotal(items: seq<Value>)
    ensures |DocumentsOf(items)| == |items|
    ensures Bounds(Json.CompactTotal(DocumentsOf(items)), SizeOfAll(items).bytes, SizeOfAll(items).exact)
    decreases items, 0
  {
    hide Json.Utf8, Json.Compact, DocumentOf, SizeOf;
    if items != [] {
      ChargeBoundsText(items[0]);
      ItemsTotal(items[1..]);
      assert DocumentsOf(items)[1..] == DocumentsOf(items[1..]);
    }
  }

  lemma ItemsTextBound(items: seq<Value>)
    ensures Bounds(Json.TextBytes(Json.Array(DocumentsOf(items))), Gaps(|items|) + SizeOfAll(items).bytes,
                   SizeOfAll(items).exact)
    decreases items, 1
  {
    hide *;
    ItemsTotal(items);
    ArrayText(DocumentsOf(items));
    Widened(Gaps(|items|), Json.CompactTotal(DocumentsOf(items)), SizeOfAll(items).bytes, SizeOfAll(items).exact);
  }

  lemma EntryText(entry: Entry)
    ensures Bounds(Json.TextBytes(EntryDocument(entry)), SizeOfEntry(entry).bytes, SizeOfEntry(entry).exact)
    decreases entry
  {
    hide Json.Utf8, Json.StringLength, Json.Compact, DocumentOf, SizeOf, Json.TextBytes;
    ChargeBoundsText(entry.key);
    ChargeBoundsText(entry.value);
    Names();
    PairLength(Json.Member("key", DocumentOf(entry.key)), Json.Member("value", DocumentOf(entry.value)));
  }

  lemma {:induction false} EntriesTotal(entries: seq<Entry>)
    ensures |EntryDocumentsOf(entries)| == |entries|
    ensures Bounds(Json.CompactTotal(EntryDocumentsOf(entries)), SizeOfEntries(entries).bytes,
                   SizeOfEntries(entries).exact)
    decreases entries, 0
  {
    hide Json.Utf8, Json.Compact, EntryDocument, SizeOfEntry;
    if entries != [] {
      EntryText(entries[0]);
      EntriesTotal(entries[1..]);
      assert EntryDocumentsOf(entries)[1..] == EntryDocumentsOf(entries[1..]);
    }
  }

  lemma EntriesTextBound(entries: seq<Entry>)
    ensures Bounds(Json.TextBytes(Json.Array(EntryDocumentsOf(entries))), Gaps(|entries|) + SizeOfEntries(entries).bytes,
                   SizeOfEntries(entries).exact)
    decreases entries, 1
  {
    hide *;
    EntriesTotal(entries);
    ArrayText(EntryDocumentsOf(entries));
    Widened(Gaps(|entries|), Json.CompactTotal(EntryDocumentsOf(entries)), SizeOfEntries(entries).bytes,
            SizeOfEntries(entries).exact);
  }

  lemma PushText(items: seq<Value>)
    ensures Json.TextBytes(CellDocument(CellOf(Push(items)))) == 23 + Json.TextBytes(Json.Array(DocumentsOf(items)))
  {
    Names();
    hide Json.Utf8, Json.StringLength, Json.Compact, DocumentsOf, Json.TextBytes;
    StringDocument("push");
    PairLength(Json.Member("data", Json.Array(DocumentsOf(items))), Json.Member("type", Json.String("push")));
  }

  lemma AttributeText(data: Value, attributes: seq<Entry>)
    ensures Json.TextBytes(CellDocument(CellOf(Attribute(data, attributes))))
         == 23 + Json.TextBytes(Json.Array(EntryDocumentsOf(attributes))) + Json.TextBytes(DocumentOf(data))
  {
    Names();
    hide Json.Utf8, Json.StringLength, Json.Compact, EntryDocumentsOf, DocumentOf, Json.TextBytes;
    PairLength(Json.Member("attributes", Json.Array(EntryDocumentsOf(attributes))),
               Json.Member("data", DocumentOf(data)));
  }

  /**
   For every reply: the bytes charged are never fewer than the bytes of the compact JSON it becomes, and
   exactly as many when it holds no big number.
   */
  lemma {:induction false} ChargeBoundsText(v: Value)
    ensures Bounds(Json.TextBytes(DocumentOf(v)), SizeOf(v).bytes, SizeOf(v).exact)
    decreases v
  {
    hide Json.Utf8, Json.StringLength, Json.Compact, DecimalText, BytesBytes, BigNumberBytes, Json.TextBytes,
         DocumentsOf, EntryDocumentsOf, SizeOfAll, SizeOfEntries;
    match v {
      case Array(items) => ItemsTextBound(items);
      case SetOf(items) => ItemsTextBound(items);
      case Push(items) =>
        ItemsTextBound(items);
        PushText(items);
      case Map(entries) => EntriesTextBound(entries);
      case Attribute(data, attributes) =>
        EntriesTextBound(attributes);
        ChargeBoundsText(data);
        AttributeText(data, attributes);
      case _ => ScalarTextBound(v);
    }
  }
}
