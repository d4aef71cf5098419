/** What a cell and a JSON document hold of the reply they were made from, read by position and by member name. */
module RespDocuments {
  import opened Wrappers
  import opened Decimals
  import opened Cells
  import opened Resp
  import opened JsonReader
  import Json

  // ---- reading a document ----

  /** Decimal digits, a minus sign before them for a negative number, and no zero that says nothing. */
  ghost predicate Spells(text: string, n: int) {
    var digits := if n < 0 && text != [] then text[1..] else text;
    && digits != [] && (forall c | c in digits :: '0' <= c <= '9') && (n != 0 ==> digits[0] != '0')
    && (if n < 0 then text[0] == '-' && ValueOf(digits) == -n else ValueOf(digits) == n && (n == 0 ==> |digits| == 1))
  }

  /** The value of the first member with this name. */
  function Field(d: Json.Document, name: string): Option<Json.Document> {
    if d.Object? then Lookup(d.members, name) else None
  }

  function Lookup(members: seq<Json.Member>, name: string): Option<Json.Document> {
    if members == [] then None
    else if members[0].name == name then Some(members[0].value)
    else Lookup(members[1..], name)
  }

  /** An object with exactly these members. */
  ghost predicate HasFields(d: Json.Document, names: set<string>) {
    d.Object? && |d.members| == |names| && NamesOf(d.members) == names
  }

  ghost function NamesOf(members: seq<Json.Member>): set<string> {
    set m | m in members :: m.name
  }

  ghost predicate FieldIs(d: Json.Document, name: string, value: Json.Document) {
    Field(d, name) == Some(value)
  }

  /** The bytes in base64, their number, and that none is missing. */
  ghost predicate ShowsBytes(d: Json.Document, bytes: seq<Json.Byte>) {
    && HasFields(d, {"base64", "original_len", "truncated"})
    && (exists base64 :: FieldIs(d, "base64", Json.String(base64)) && ReadBase64(base64) == Some(bytes))
    && (exists length :: FieldIs(d, "original_len", Json.Number(length)) && Spells(length, |bytes|))
    && FieldIs(d, "truncated", Json.Bool(false))
  }

  /** The document stands for the reply: item by item, and for pairs by the names of their members. */
  ghost predicate Shows(d: Json.Document, v: Value)
    decreases v, 1
  {
    match v
    case Nil => d == Json.Null
    case Int(number) => d.Number? && Spells(d.text, number)
    case BulkText(text) => d == Json.String(text)
    case BulkBytes(bytes) => ShowsBytes(d, bytes)
    case SimpleString(text) => d == Json.String(text)
    case Okay => d == Json.String("OK")
    case Double(float) => d == if float.json.Some? then Json.Number(float.json.value) else Json.Null
    case Boolean(value) => d == Json.Bool(value)
    case Array(items) => ShowsItems(d, items)
    case SetOf(items) => ShowsItems(d, items)
    case Map(entries) => ShowsEntries(d, entries)
    case Attribute(data, attributes) =>
      && HasFields(d, {"attributes", "data"})
      && Field(d, "attributes").Some? && ShowsEntries(Field(d, "attributes").value, attributes)
      && Field(d, "data").Some? && Shows(Field(d, "data").value, data)
    case VerbatimString(text) => d == Json.String(text)
    case BigNumber(number) => d.String? && Spells(d.text, number)
    case Push(items) =>
      && HasFields(d, {"data", "type"}) && FieldIs(d, "type", Json.String("push"))
      && Field(d, "data").Some? && ShowsItems(Field(d, "data").value, items)
    case ServerError => d == Json.String("[redis-server-error]")
    case Unsupported => d == Json.String("[unsupported-resp-value]")
  }

  ghost predicate ShowsItems(d: Json.Document, items: seq<Value>)
    decreases items, 0
  {
    d.Array? && |d.items| == |items| && forall i | 0 <= i < |items| :: Shows(d.items[i], items[i])
  }

  /** One object for each pair, in order: its member `key` is the key and its member `value` the value. */
  ghost predicate ShowsEntries(d: Json.Document, entries: seq<Entry>)
    decreases entries, 0
  {
    d.Array? && |d.items| == |entries| && forall i | 0 <= i < |entries| :: ShowsEntry(d.items[i], entries[i])
  }

  ghost predicate ShowsEntry(d: Json.Document, entry: Entry)
    decreases entry, 2
  {
    && HasFields(d, {"key", "value"})
    && Field(d, "key").Some? && Shows(Field(d, "key").value, entry.key)
    && Field(d, "value").Some? && Shows(Field(d, "value").value, entry.value)
  }

  /** The cell stands for the reply. */
  ghost predicate CellShows(cell: Cell, v: Value) {
    match v
    case Nil => cell == Cell.Null
    case Int(number) => cell == Cell.Int(number)
    case BulkText(text) => cell == Text(text)
    case BulkBytes(bytes) => cell == Bytes(bytes, |bytes|)
    case SimpleString(text) => cell == Text(text)
    case Okay => cell == Text("OK")
    case Double(float) => cell == Float(float)
    case Boolean(value) => cell == Cell.Bool(value)
    case VerbatimString(text) => cell == Text(text)
    case BigNumber(number) => cell.Decimal? && Spells(cell.text, number)
    case ServerError => cell == Text("[redis-server-error]")
    case Unsupported => cell == Text("[unsupported-resp-value]")
    case _ => cell.JsonCell? && Shows(cell.document, v)
  }

  // ---- what is built ----

  lemma {:induction false} NoLeadingZero(n: nat)
    ensures n > 0 ==> DecimalText(n)[0] != '0'
    ensures n < 10 ==> |DecimalText(n)| == 1
  {
    if n >= 10 {
      NoLeadingZero(n / 10);
    }
  }

  lemma SignedSpells(n: int)
    ensures Spells(SignedText(n), n)
  {
    var magnitude := if n < 0 then -n else n;
    DecimalReadsBack(magnitude);
    NoLeadingZero(magnitude);
    hide DecimalText, ValueOf;
    if n < 0 {
      assert SignedText(n)[1..] == DecimalText(-n);
    }
  }

  lemma PairFields(a: string, first: Json.Document, b: string, second: Json.Document)
    requires a != b
    ensures var d := Json.Object([Json.Member(a, first), Json.Member(b, second)]);
            HasFields(d, {a, b}) && Field(d, a) == Some(first) && Field(d, b) == Some(second)
  {
    var members := [Json.Member(a, first), Json.Member(b, second)];
    assert members[1..] == [Json.Member(b, second)];
    assert members[0] in members && members[1] in members;
    assert NamesOf(members) == {a, b};
    assert {a, b} == {a} + {b};
    var d := Json.Object(members);
    assert Field(d, b) == Lookup(members[1..], b);
  }

  lemma TripleFields(a: string, first: Json.Document, b: string, second: Json.Document, c: string, third: Json.Document)
    requires a != b && b != c && a != c
    ensures var d := Json.Object([Json.Member(a, first), Json.Member(b, second), Json.Member(c, third)]);
            && HasFields(d, {a, b, c})
            && Field(d, a) == Some(first) && Field(d, b) == Some(second) && Field(d, c) == Some(third)
  {
    var members := [Json.Member(a, first), Json.Member(b, second), Json.Member(c, third)];
    var later := [Json.Member(b, second), Json.Member(c, third)];
    PairFields(b, second, c, third);
    assert members[1..] == later;
    assert Field(Json.Object(members), b) == Field(Json.Object(later), b);
    assert Field(Json.Object(members), c) == Field(Json.Object(later), c);
    hide Lookup;
    assert members[0] in members && members[1] in members && members[2] in members;
    assert NamesOf(members) == {a, b, c};
    assert {a, b, c} == {a} + {b, c};
  }

  lemma BytesShow(bytes: seq<Json.Byte>)
    ensures ShowsBytes(CellDocument(Bytes(bytes, |bytes|)), bytes)
  {
    Base64ReadsBack(bytes);
    SignedSpells(|bytes|);
    hide Json.Base64, DecimalText, ReadBase64, Spells;
    TripleFields("base64", Json.String(Json.Base64(bytes)), "original_len", Json.Number(DecimalText(|bytes|)),
                 "truncated", Json.Bool(false));
  }

  lemma {:induction false} DocumentsAt(items: seq<Value>, i: nat)
    ensures |DocumentsOf(items)| == |items|
    ensures i < |items| ==> DocumentsOf(items)[i] == DocumentOf(items[i])
  {
    hide DocumentOf;
    if items != [] {
      DocumentsAt(items[1..], if i == 0 then 0 else i - 1);
    }
  }

  lemma {:induction false} EntryDocumentsAt(entries: seq<Entry>, i: nat)
    ensures |EntryDocumentsOf(entries)| == |entries|
    ensures i < |entries| ==> EntryDocumentsOf(entries)[i] == EntryDocument(entries[i])
  {
    hide EntryDocument;
    if entries != [] {
      EntryDocumentsAt(entries[1..], if i == 0 then 0 else i - 1);
    }
  }

  lemma {:induction false} ItemsShow(items: seq<Value>)
    ensures ShowsItems(Json.Array(DocumentsOf(items)), items)
    decreases items, 0
  {
    hide DocumentOf, DocumentsOf, Shows;
    DocumentsAt(items, 0);
    forall i | 0 <= i < |items|
      ensures Shows(DocumentsOf(items)[i], items[i])
    {
      DocumentsAt(items, i);
      DocumentShows(items[i]);
    }
  }

  lemma EntryShows(entry: Entry)
    ensures ShowsEntry(EntryDocument(entry), entry)
    decreases entry, 2
  {
    hide DocumentOf, Shows, Field;
    DocumentShows(entry.key);
    DocumentShows(entry.value);
    PairFields("key", DocumentOf(entry.key), "value", DocumentOf(entry.value));
  }

  lemma {:induction false} EntriesShow(entries: seq<Entry>)
    ensures ShowsEntries(Json.Array(EntryDocumentsOf(entries)), entries)
    decreases entries, 0
  {
    hide EntryDocument, EntryDocumentsOf, ShowsEntry;
    EntryDocumentsAt(entries, 0);
    forall i | 0 <= i < |entries|
      ensures ShowsEntry(EntryDocumentsOf(entries)[i], entries[i])
    {
      EntryDocumentsAt(entries, i);
      EntryShows(entries[i]);
    }
  }

  lemma ScalarShows(v: Value)
    requires !IsComposite(v)
    ensures Shows(DocumentOf(v), v) && CellShows(CellOf(v), v)
  {
    match v {
      case Int(number) => SignedSpells(number);
      case BigNumber(number) => SignedSpells(number);
      case BulkBytes(bytes) => BytesShow(bytes);
      case _ =>
    }
    hide Spells, ShowsBytes, DecimalText, Json.Base64;
  }

  /** The document a reply becomes holds the reply, to any depth. */
  lemma {:induction false} DocumentShows(v: Value)
    ensures Shows(DocumentOf(v), v)
    decreases v, 1
  {
    hide Field, HasFields, ShowsItems, ShowsEntries;
    match v {
      case Array(items) => ItemsShow(items);
      case SetOf(items) => ItemsShow(items);
      case Map(entries) => EntriesShow(entries);
      case Attribute(data, attributes) =>
        EntriesShow(attributes);
        DocumentShows(data);
        PairFields("attributes", Json.Array(EntryDocumentsOf(attributes)), "data", DocumentOf(data));
      case Push(items) =>
        ItemsShow(items);
        PairFields("data", Json.Array(DocumentsOf(items)), "type", Json.String("push"));
      case _ => ScalarShows(v);
    }
  }

  /** And so does the cell. */
  lemma CellHolds(v: Value)
    ensures CellShows(CellOf(v), v)
  {
    if IsComposite(v) {
      DocumentShows(v);
      hide Shows, DocumentsOf, EntryDocumentsOf;
    } else {
      ScalarShows(v);
    }
  }

  /** The document of any cell, also of those that no reply becomes: numbers, texts, previews and parts of bytes. */
  lemma CellDocumentMeaning(cell: Cell)
    ensures var d := CellDocument(cell);
            && (cell.UInt? ==> d.Number? && Spells(d.text, cell.count))
            && (cell.Text? || cell.Decimal? || cell.DateTime? ==> d == Json.String(cell.text))
            && (cell.TextPreview? || cell.JsonPreview? ==>
                  && HasFields(d, {"original_len", "preview", "truncated"})
                  && FieldIs(d, "preview", Json.String(cell.preview)) && FieldIs(d, "truncated", Json.Bool(true))
                  && exists length :: FieldIs(d, "original_len", Json.Number(length)) && Spells(length, cell.originalLen))
            && (cell.Bytes? ==>
                  && HasFields(d, {"base64", "original_len", "truncated"})
                  && (exists base64 ::
                        FieldIs(d, "base64", Json.String(base64)) && ReadBase64(base64) == Some(cell.retained))
                  && (exists length ::
                        FieldIs(d, "original_len", Json.Number(length)) && Spells(length, cell.originalLen))
                  && FieldIs(d, "truncated", Json.Bool(|cell.retained| < cell.originalLen)))
  {
    hide Spells, DecimalText, Json.Base64, ReadBase64, HasFields, Field;
    match cell {
      case UInt(count) => SignedSpells(count);
      case TextPreview(preview, originalLen) =>
        SignedSpells(originalLen);
        TripleFields("original_len", Json.Number(DecimalText(originalLen)), "preview", Json.String(preview), "truncated",
                     Json.Bool(true));
      case JsonPreview(preview, originalLen) =>
        SignedSpells(originalLen);
        TripleFields("original_len", Json.Number(DecimalText(originalLen)), "preview", Json.String(preview), "truncated",
                     Json.Bool(true));
      case Bytes(retained, originalLen) =>
        SignedSpells(originalLen);
        Base64ReadsBack(retained);
        TripleFields("base64", Json.String(Json.Base64(retained)), "original_len",
                     Json.Number(DecimalText(originalLen)), "truncated", Json.Bool(|retained| < originalLen));
      case _ =>
    }
  }

  // ---- the text of the document ----

  /** What the libraries print for a number is spelled like one. */
  ghost predicate FloatsSpelled(v: Value)
    decreases v
  {
    match v
    case Double(float) => float.json.Some? ==> IsNumberText(float.json.value)
    case Array(items) => forall i | 0 <= i < |items| :: FloatsSpelled(items[i])
    case SetOf(items) => forall i | 0 <= i < |items| :: FloatsSpelled(items[i])
    case Push(items) => forall i | 0 <= i < |items| :: FloatsSpelled(items[i])
    case Map(entries) => forall i | 0 <= i < |entries| :: FloatsSpelled(entries[i].key) && FloatsSpelled(entries[i].value)
    case Attribute(data, attributes) =>
      FloatsSpelled(data)
      && forall i | 0 <= i < |attributes| :: FloatsSpelled(attributes[i].key) && FloatsSpelled(attributes[i].value)
    case _ => true
  }

  lemma DigitsAreNumber(n: int)
    ensures IsNumberText(SignedText(n))
  {
    SignedSpells(n);
    var text := SignedText(n);
    hide DecimalText, SignedText, ValueOf;
    forall i | 0 <= i < |text|
      ensures IsNumberChar(text[i])
    {
      if n < 0 && i > 0 {
        assert text[i] == text[1..][i - 1];
      } else if n >= 0 {
        assert text[i] in text;
      }
    }
  }

  lemma {:induction false} DocumentIsSpelled(v: Value)
    requires FloatsSpelled(v)
    ensures WellSpelled(DocumentOf(v))
    decreases v, 1
  {
    hide IsNumberText, DecimalText, Json.Base64, DocumentsOf, EntryDocumentsOf;
    match v {
      case Array(items) => ItemsAreSpelled(items);
      case SetOf(items) => ItemsAreSpelled(items);
      case Push(items) => ItemsAreSpelled(items);
      case Map(entries) => EntriesAreSpelled(entries);
      case Attribute(data, attributes) =>
        EntriesAreSpelled(attributes);
        DocumentIsSpelled(data);
      case _ => ScalarIsSpelled(v);
    }
  }

  lemma ScalarIsSpelled(v: Value)
    requires FloatsSpelled(v) && !IsComposite(v)
    ensures WellSpelled(DocumentOf(v))
  {
    hide IsNumberText, DecimalText, Json.Base64;
    match v {
      case Int(number) => DigitsAreNumber(number);
      case BulkBytes(bytes) => DigitsAreNumber(|bytes|);
      case _ =>
    }
  }

  lemma {:induction false} ItemsAreSpelled(items: seq<Value>)
    requires forall i | 0 <= i < |items| :: FloatsSpelled(items[i])
    ensures WellSpelled(Json.Array(DocumentsOf(items)))
    decreases items, 0
  {
    hide DocumentOf, DocumentsOf, FloatsSpelled;
    DocumentsAt(items, 0);
    forall i | 0 <= i < |items|
      ensures WellSpelled(DocumentsOf(items)[i])
    {
      DocumentsAt(items, i);
      DocumentIsSpelled(items[i]);
    }
  }

  lemma {:induction false} EntriesAreSpelled(entries: seq<Entry>)
    requires forall i | 0 <= i < |entries| :: FloatsSpelled(entries[i].key) && FloatsSpelled(entries[i].value)
    ensures WellSpelled(Json.Array(EntryDocumentsOf(entries)))
    decreases entries, 0
  {
    hide DocumentOf, EntryDocumentsOf, FloatsSpelled;
    EntryDocumentsAt(entries, 0);
    forall i | 0 <= i < |entries|
      ensures WellSpelled(EntryDocumentsOf(entries)[i])
    {
      EntryDocumentsAt(entries, i);
      EntryIsSpelled(entries[i]);
    }
  }

  lemma EntryIsSpelled(entry: Entry)
    requires FloatsSpelled(entry.key) && FloatsSpelled(entry.value)
    ensures WellSpelled(EntryDocument(entry))
    decreases entry, 2
  {
    hide DocumentOf, FloatsSpelled;
    DocumentIsSpelled(entry.key);
    DocumentIsSpelled(entry.value);
  }

  /** The JSON text that is charged for a reply reads back to a document that holds the reply. */
  lemma ReplyReadsBack(v: Value)
    requires FloatsSpelled(v)
    ensures var read := ReadValue(Json.Compact(DocumentOf(v)));
            read.Some? && read.value.rest == "" && Shows(read.value.value, v)
  {
    hide DocumentOf, Shows, ReadValue, Json.Compact, FloatsSpelled, WellSpelled;
    DocumentIsSpelled(v);
    DocumentShows(v);
    CompactReadsBack(DocumentOf(v));
  }
}
