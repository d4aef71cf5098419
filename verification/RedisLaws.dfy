/** What rows, charges and sizes of a reply come to, in terms of the reply alone. */
module RedisLaws {
  import opened Wrappers
  import opened Decimals
  import opened Cells
  import opened Resp
  import opened RespDocuments
  import opened RedisRows
  import opened Numbers
  import Json

  // ---- rows ----

  ghost predicate RowShows(row: seq<Cell>, v: Value) {
    |row| == 1 && CellShows(row[0], v)
  }

  /**
   The rows of a reply hold it: the first items of an array, one a row and in order, or any other reply as the one
   row there is. Where the flag is down nothing of the reply is missing.
   */
  lemma RowsShowTheReply(reply: Value, rowLimit: nat, rows: seq<seq<Cell>>, truncated: bool)
    requires Decoded(reply, rowLimit, rows, truncated)
    ensures reply.Array? ==>
              && |rows| <= |reply.items| && forall i | 0 <= i < |rows| :: RowShows(rows[i], reply.items[i])
    ensures reply.Array? && !truncated ==> |rows| == |reply.items|
    ensures !reply.Array? ==> rows == [] || (|rows| == 1 && RowShows(rows[0], reply))
    ensures !reply.Array? && !truncated ==> |rows| == 1
  {
    hide AllWhole, TotalNodes, Previewable, CellOf, CellShows;
    var items := ItemsOf(reply);
    forall i | 0 <= i < |rows|
      ensures RowShows(rows[i], items[i])
    {
      CellHolds(items[i]);
    }
  }

  // ---- charges ----

  /** A value may be cut short where its cell is text or bytes of the server's. */
  lemma PreviewableMeaning(v: Value)
    ensures Previewable(v) <==> (CellOf(v).Text? || CellOf(v).Bytes?) && !v.ServerError? && !v.Unsupported?
  {
  }

  /**
   What a scalar is charged: the bytes of its text, or of the bytes it is; for null, a number or a truth value the
   bytes of its JSON; and for a big number the bound that its bits give, which covers its digits and sign.
   */
  lemma ScalarCharge(v: Value)
    requires !IsComposite(v)
    ensures ChargedNodes(v) == 1
    ensures CellOf(v).Text? ==> ChargedBytes(v) == Json.ByteLen(CellOf(v).text)
    ensures CellOf(v).Bytes? ==> ChargedBytes(v) == |CellOf(v).retained|
    ensures v.Nil? || v.Int? || v.Double? || v.Boolean? ==> ChargedBytes(v) == Json.TextBytes(DocumentOf(v))
    ensures v.BigNumber? ==>
              |SignedText(v.number)| <= ChargedBytes(v)
              && (Bounded(v.number) ==>
                    UpperBoundFromBits(Bits(Magnitude(v.number))) == Some(ChargedBytes(v)))
  {
    NamedRetention();
    Names();
    hide Json.Utf8, Json.StringLength, Json.Compact, DecimalText, BytesBytes, BigNumberBytes, Json.TextBytes, Json.ByteLen,
         Bits;
    match v {
      case Int(number) =>
        SignedTextBytes(number);
        NumberDocument(SignedText(number));
      case BigNumber(number) => BigNumberCharge(number);
      case Double(float) => NumberDocument(if float.json.Some? then float.json.value else "");
      case _ => NumberDocument("");
    }
  }

  /** A number or null counts for the bytes of its JSON, and a truth value for those of the longer of the two. */
  lemma ScalarCellBytes(cell: Cell)
    requires cell.Null? || cell.Bool? || cell.Int? || cell.UInt?
    ensures CellBytes(cell) == Json.TextBytes(CellDocument(if cell.Bool? then Cell.Bool(false) else cell))
    ensures CellBytes(cell) >= Json.TextBytes(CellDocument(cell))
  {
    Names();
    hide *;
    match cell {
      case Int(number) => NumberCellBytes(cell, number);
      case UInt(count) => NumberCellBytes(cell, count);
      case Bool(value) => NamedCellBytes(value);
      case Null => NamedCellBytes(true);
    }
  }

  lemma NumberCellBytes(cell: Cell, number: int)
    requires cell == Cell.Int(number) || (number >= 0 && cell == Cell.UInt(number))
    ensures CellBytes(cell) == Json.TextBytes(CellDocument(cell))
  {
    SignedTextBytes(number);
    NumberDocument(SignedText(number));
    hide Json.Utf8, Json.StringLength, DecimalText, Json.ByteLen, Json.TextBytes, Json.Compact, Json.Base64, Preview;
  }

  lemma NamedCellBytes(value: bool)
    ensures CellBytes(Cell.Bool(value)) == Json.TextBytes(CellDocument(Cell.Bool(false)))
            >= Json.TextBytes(CellDocument(Cell.Bool(value)))
    ensures CellBytes(Cell.Null) == Json.TextBytes(CellDocument(Cell.Null))
  {
    Names();
    NumberDocument("");
    hide Json.Utf8, Json.StringLength, DecimalText, Json.ByteLen, Json.TextBytes, Json.Compact, Json.Base64, Preview;
  }

  /** Every other cell counts for the bytes it holds, or its text, or its JSON. */
  lemma HeldCellBytes(cell: Cell)
    ensures cell.Bytes? ==> CellBytes(cell) == |cell.retained|
    ensures cell.Text? || cell.Decimal? || cell.DateTime? ==> CellBytes(cell) == |Json.Utf8(cell.text)|
    ensures cell.TextPreview? || cell.JsonPreview? ==> CellBytes(cell) == |Json.Utf8(cell.preview)|
    ensures cell.Float? ==> CellBytes(cell) == |Json.Utf8(cell.float.display)|
    ensures cell.JsonCell? ==> CellBytes(cell) == |Json.Utf8(Json.Compact(cell.document))|
  {
    hide Json.Utf8, Json.Compact, DecimalText;
  }

  lemma BigNumberCharge(number: int)
    ensures |SignedText(number)| <= ChargedBytes(BigNumber(number))
    ensures Bounded(number) ==>
              UpperBoundFromBits(Bits(Magnitude(number))) == Some(ChargedBytes(BigNumber(number)))
  {
    BigNumberBounded(number);
    BigNumberMeasure(number);
    hide Bits, DecimalText;
  }

  // ---- sizes ----

  function Sides(entries: seq<Entry>): (sides: seq<Value>)
    ensures |sides| == 2 * |entries|
  {
    if entries == [] then [] else [entries[0].key, entries[0].value] + Sides(entries[1..])
  }

  /** The values a value is made of, in the order they are decoded. */
  function PartsOf(v: Value): seq<Value> {
    match v
    case Array(items) => items
    case SetOf(items) => items
    case Push(items) => items
    case Map(entries) => Sides(entries)
    case Attribute(data, attributes) => Sides(attributes) + [data]
    case _ => []
  }

  function NodesOfAll(parts: seq<Value>): nat {
    if parts == [] then 0 else SizeOf(parts[0]).nodes + NodesOfAll(parts[1..])
  }

  /** The greatest of the heights; 0 where there is nothing. */
  ghost predicate IsTallest(parts: seq<Value>, height: nat) {
    && (forall i | 0 <= i < |parts| :: SizeOf(parts[i]).height <= height)
    && (parts == [] ==> height == 0)
    && (parts != [] ==> exists i | 0 <= i < |parts| :: SizeOf(parts[i]).height == height)
  }

  lemma {:induction false} ItemSizes(items: seq<Value>)
    ensures SizeOfAll(items).nodes == NodesOfAll(items) && IsTallest(items, SizeOfAll(items).height)
  {
    hide SizeOf;
    if items != [] {
      var rest := items[1..];
      ItemSizes(rest);
      if SizeOf(items[0]).height < SizeOfAll(rest).height {
        var i :| 0 <= i < |rest| && SizeOf(rest[i]).height == SizeOfAll(rest).height;
        assert items[i + 1] == rest[i];
      }
      forall i | 0 <= i < |items|
        ensures SizeOf(items[i]).height <= SizeOfAll(items).height
      {
        assert i > 0 ==> items[i] == rest[i - 1];
      }
    }
  }

  lemma {:induction false} EntrySizes(entries: seq<Entry>)
    ensures SizeOfEntries(entries).nodes == SizeOfAll(Sides(entries)).nodes
    ensures SizeOfEntries(entries).height == SizeOfAll(Sides(entries)).height
  {
    hide SizeOf;
    if entries != [] {
      EntrySizes(entries[1..]);
      var sides, rest := Sides(entries), Sides(entries[1..]);
      assert sides[1..] == [entries[0].value] + rest && sides[1..][1..] == rest;
      assert SizeOfAll(sides[1..]) == Plus(SizeOf(entries[0].value), SizeOfAll(rest));
    }
  }

  lemma {:induction false} OneMoreSize(parts: seq<Value>, last: Value)
    ensures SizeOfAll(parts + [last]).nodes == SizeOfAll(parts).nodes + SizeOf(last).nodes
    ensures SizeOfAll(parts + [last]).height == Max(SizeOfAll(parts).height, SizeOf(last).height)
  {
    hide SizeOf;
    var all := parts + [last];
    if parts == [] {
      assert all == [last] && all[1..] == [];
    } else {
      OneMoreSize(parts[1..], last);
      assert all[1..] == parts[1..] + [last];
    }
  }

  ghost predicate AllExact(parts: seq<Value>) {
    forall i | 0 <= i < |parts| :: SizeOf(parts[i]).exact
  }

  ghost predicate AllBounded(parts: seq<Value>) {
    forall i | 0 <= i < |parts| :: SizeOf(parts[i]).bounded
  }

  lemma {:induction false} ItemMarks(items: seq<Value>)
    ensures SizeOfAll(items).exact <==> AllExact(items)
    ensures SizeOfAll(items).bounded <==> AllBounded(items)
  {
    hide SizeOf;
    if items != [] {
      ItemMarks(items[1..]);
      assert forall i | 0 < i < |items| :: items[i] == items[1..][i - 1];
      assert forall i | 0 <= i < |items| - 1 :: items[1..][i] == items[i + 1];
    }
  }

  lemma TwoMore(a: Value, b: Value, rest: seq<Value>)
    ensures AllExact([a, b] + rest) <==> SizeOf(a).exact && SizeOf(b).exact && AllExact(rest)
    ensures AllBounded([a, b] + rest) <==> SizeOf(a).bounded && SizeOf(b).bounded && AllBounded(rest)
  {
    hide SizeOf;
    var parts := [a, b] + rest;
    assert parts[0] == a && parts[1] == b;
    assert forall i | 0 <= i < |rest| :: rest[i] == parts[i + 2];
    assert forall i | 2 <= i < |parts| :: parts[i] == rest[i - 2];
  }

  lemma {:induction false} EntryMarks(entries: seq<Entry>)
    ensures SizeOfEntries(entries).exact <==> AllExact(Sides(entries))
    ensures SizeOfEntries(entries).bounded <==> AllBounded(Sides(entries))
  {
    hide SizeOf, AllExact, AllBounded;
    if entries == [] {
      NoMarks();
    } else {
      EntryMarks(entries[1..]);
      TwoMore(entries[0].key, entries[0].value, Sides(entries[1..]));
    }
  }

  lemma NoMarks()
    ensures AllExact([]) && AllBounded([])
  {
  }

  /** The charge of a value is that of its text unless there is a big number in it; and those are within the word. */
  lemma MarksOfParts(v: Value)
    ensures SizeOf(v).exact <==> !v.BigNumber? && AllExact(PartsOf(v))
    ensures SizeOf(v).bounded <==> (v.BigNumber? ==> Bounded(v.number)) && AllBounded(PartsOf(v))
  {
    ItemMarks(PartsOf(v));
    match v {
      case Map(entries) => EntryMarks(entries);
      case Attribute(data, attributes) =>
        EntryMarks(attributes);
        var parts := PartsOf(v);
        assert parts[|parts| - 1] == data;
        assert forall i | 0 <= i < |Sides(attributes)| :: Sides(attributes)[i] == parts[i];
      case _ =>
    }
    hide Sides, ScalarBytes, BigNumberBytes, Bounded;
  }

  /**
   The nodes of a value are itself and the nodes of its parts; its height is one more than that of its tallest part.
   So the nodes are all the values there are in it, and the height is how deep they nest.
   */
  lemma SizeOfParts(v: Value)
    ensures SizeOf(v).nodes == 1 + NodesOfAll(PartsOf(v))
    ensures SizeOf(v).height >= 1 && IsTallest(PartsOf(v), SizeOf(v).height - 1)
  {
    ItemSizes(PartsOf(v));
    match v {
      case Map(entries) => EntrySizes(entries);
      case Attribute(data, attributes) =>
        EntrySizes(attributes);
        OneMoreSize(Sides(attributes), data);
      case _ =>
    }
    hide IsTallest, NodesOfAll, Sides, ScalarBytes, BigNumberBytes, Bounded;
  }

  // ---- when nothing is missing ----

  function BytesOfAll(parts: seq<Value>): nat {
    if parts == [] then 0 else ChargedBytes(parts[0]) + BytesOfAll(parts[1..])
  }

  lemma {:induction false} FirstOfTotals(items: seq<Value>)
    requires items != []
    ensures TotalNodes(items) == SizeOf(items[0]).nodes + TotalNodes(items[1..])
    ensures TotalBytes(items) == ChargedBytes(items[0]) + TotalBytes(items[1..])
  {
    hide ChargedBytes, SizeOf;
    var most := items[..|items| - 1];
    if most != [] {
      FirstOfTotals(most);
      assert items[1..][..|items| - 2] == most[1..];
    }
  }

  lemma {:induction false} TotalsOfAll(items: seq<Value>)
    ensures TotalNodes(items) == NodesOfAll(items) && TotalBytes(items) == BytesOfAll(items)
  {
    hide ChargedBytes, SizeOf, TotalNodes, TotalBytes;
    if items != [] {
      FirstOfTotals(items);
      TotalsOfAll(items[1..]);
    } else {
      NoTotals();
    }
  }

  lemma NoTotals()
    ensures TotalNodes([]) == 0 && TotalBytes([]) == 0
  {
  }

  /**
   The flag is down exactly where no more values came than were asked for, each of at most 64 KiB and eight levels, and
   all together of at most ten thousand nodes and 8 MiB.
   */
  lemma CompleteMeaning(reply: Value, rowLimit: nat, rows: seq<seq<Cell>>, truncated: bool)
    requires Decoded(reply, rowLimit, rows, truncated)
    ensures var items := if reply.Array? then reply.items else [reply];
            !truncated <==>
              && |items| <= rowLimit && NodesOfAll(items) <= 10_000 && BytesOfAll(items) <= 8_388_608
              && forall v | v in items :: ChargedBytes(v) <= 65_536 && (IsComposite(v) ==> SizeOf(v).height <= 8)
  {
    var items := ItemsOf(reply);
    TotalsOfAll(items);
    hide ChargedBytes, SizeOf, TotalNodes, TotalBytes, NodesOfAll, BytesOfAll, RowsAreAPrefix;
    assert forall i | 0 <= i < |items| :: items[i] in items;
  }
}
