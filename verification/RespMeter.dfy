/** The composite meter: one pass over a reply that spends a depth, a node and a byte budget together. */
module RespMeter {
  import opened Wrappers
  import opened Decimals
  import opened Limits
  import opened Resp
  import Json

  /** `checked_add` and `checked_mul` results. */
  function Checked(n: nat): Option<nat> {
    if n <= USIZE_MAX then Some(n) else None
  }

  /** `json_string_bytes`: the quoted, escaped length, one character at a time. */
  method JsonStringBytes(text: string) returns (length: Option<nat>)
    ensures length == Checked(2 + Json.StringLength(text))
  {
    var bytes := 2;
    var i := 0;
    while i < |text|
      invariant 0 <= i <= |text| && bytes <= USIZE_MAX
      invariant bytes + Json.StringLength(text[i..]) == 2 + Json.StringLength(text)
    {
      assert text[i..][1..] == text[i + 1..];
      var c := text[i];
      var encoded :=
        if c == '"' || c == '\\' || c as int == 0x08 || c as int == 0x0C || c == '\n' || c == '\r' || c == '\t' then 2
        else if c as int <= 0x1F then 6
        else Json.Utf8Length(c);
      if bytes + encoded > USIZE_MAX {
        return None;
      }
      bytes := bytes + encoded;
      i := i + 1;
    }
    return Some(bytes);
  }

  /** `base64_encoded_bytes`. */
  function Base64EncodedBytes(bytes: nat): Option<nat> {
    if bytes + 2 > USIZE_MAX then None else Checked((bytes + 2) / 3 * 4)
  }

  // ---- the meter as a value ----

  datatype Meter = Meter(remainingNodes: nat, remainingBytes: nat, nodes: nat, encodedBytes: nat)

  const NODE := Size(1, 1, 0, true, true)

  function Charge(bytes: nat): Size {
    Size(0, 0, bytes, true, true)
  }

  /** What is left of the meter, at this depth, has room for this size. */
  predicate Fits(m: Meter, depth: nat, size: Size) {
    && depth + size.height <= MAX_REDIS_DEPTH
    && size.nodes <= m.remainingNodes
    && size.bytes <= m.remainingBytes
    && size.bounded
  }

  function Spend(m: Meter, size: Size): Meter
    requires size.nodes <= m.remainingNodes && size.bytes <= m.remainingBytes
  {
    Meter(m.remainingNodes - size.nodes, m.remainingBytes - size.bytes,
          m.nodes + size.nodes, m.encodedBytes + size.bytes)
  }

  /** Two parts fit together exactly when the second fits in what the first leaves. */
  lemma FitsInTurn(m: Meter, depth: nat, a: Size, b: Size)
    ensures Fits(m, depth, Plus(a, b)) <==> Fits(m, depth, a) && Fits(Spend(m, a), depth, b)
    ensures Fits(m, depth, Plus(a, b)) ==> Spend(m, Plus(a, b)) == Spend(Spend(m, a), b)
  {
  }

  lemma FitsAround(m: Meter, depth: nat, extra: nat, parts: Size)
    ensures Fits(m, depth, Around(extra, parts))
       <==> Fits(m, depth, NODE) && Fits(Spend(m, NODE), depth + 1, Plus(Charge(extra), parts))
    ensures Fits(m, depth, Around(extra, parts)) ==>
              Spend(m, Around(extra, parts)) == Spend(Spend(m, NODE), Plus(Charge(extra), parts))
  {
  }

  lemma FitsScalar(m: Meter, depth: nat, v: Value)
    requires !IsComposite(v) && Fits(m, depth, NODE)
    ensures Fits(m, depth, SizeOf(v)) <==> SizeOf(v).bounded && ScalarBytes(v) <= Spend(m, NODE).remainingBytes
    ensures Fits(m, depth, SizeOf(v)) ==> Spend(m, SizeOf(v)) == Spend(Spend(m, NODE), Charge(ScalarBytes(v)))
  {
    hide BigNumberBytes, Bounded, Json.StringLength, DecimalText;
  }

  lemma NodeComesFirst(m: Meter, depth: nat, v: Value)
    requires !Fits(m, depth, NODE)
    ensures !Fits(m, depth, SizeOf(v))
  {
    hide ScalarBytes, BigNumberBytes, Bounded, SizeOfAll, SizeOfEntries;
  }

  lemma PlusAssociates(a: Size, b: Size, c: Size)
    ensures Plus(Plus(a, b), c) == Plus(a, Plus(b, c))
    ensures Plus(a, NOTHING) == a && Plus(NOTHING, a) == a
  {
  }

  // ---- the meter as the driver runs it ----

  class CompositeMeter {
    var remainingNodes: nat
    var remainingBytes: nat
    var nodes: nat
    var encodedBytes: nat

    /** No counter can overflow: what is spent and what is left stay within the machine word together. */
    predicate Valid()
      reads this
    {
      nodes + remainingNodes <= USIZE_MAX && encodedBytes + remainingBytes <= USIZE_MAX
    }

    function State(): Meter
      reads this
    {
      Meter(remainingNodes, remainingBytes, nodes, encodedBytes)
    }

    constructor (remainingNodes: nat, byteLimit: nat)
      requires remainingNodes <= USIZE_MAX && byteLimit <= USIZE_MAX
      ensures Valid() && State() == Meter(remainingNodes, byteLimit, 0, 0)
    {
      this.remainingNodes := remainingNodes;
      this.remainingBytes := byteLimit;
      nodes := 0;
      encodedBytes := 0;
    }

    method ConsumeNode(depth: nat) returns (ok: bool)
      requires Valid()
      modifies this
      ensures ok <==> Fits(old(State()), depth, NODE)
      ensures ok ==> depth < MAX_REDIS_DEPTH
      ensures ok ==> Valid() && State() == Spend(old(State()), NODE)
    {
      if depth >= MAX_REDIS_DEPTH || remainingNodes < 1 {
        return false;
      }
      remainingNodes := remainingNodes - 1;
      if nodes + 1 > USIZE_MAX {
        return false;
      }
      nodes := nodes + 1;
      return true;
    }

    method AddBytes(bytes: nat) returns (ok: bool)
      requires Valid()
      modifies this
      ensures ok <==> bytes <= old(State()).remainingBytes
      ensures ok ==> Valid() && State() == Spend(old(State()), Charge(bytes))
    {
      if remainingBytes < bytes {
        return false;
      }
      remainingBytes := remainingBytes - bytes;
      if encodedBytes + bytes > USIZE_MAX {
        return false;
      }
      encodedBytes := encodedBytes + bytes;
      return true;
    }

    method AddCheckedBytes(bytes: Option<nat>) returns (ok: bool)
      requires Valid()
      modifies this
      ensures ok <==> bytes.Some? && bytes.value <= old(State()).remainingBytes
      ensures ok ==> Valid() && State() == Spend(old(State()), Charge(bytes.value))
    {
      if bytes.None? {
        return false;
      }
      ok := AddBytes(bytes.value);
    }

    method MeasureText(text: string) returns (ok: bool)
      requires Valid()
      modifies this
      ensures ok <==> 2 + Json.StringLength(text) <= old(State()).remainingBytes
      ensures ok ==> Valid() && State() == Spend(old(State()), Charge(2 + Json.StringLength(text)))
    {
      var bytes := JsonStringBytes(text);
      ok := AddCheckedBytes(bytes);
    }

    method MeasureBytes(length: nat) returns (ok: bool)
      requires Valid()
      modifies this
      ensures ok <==> BytesBytes(length) <= old(State()).remainingBytes
      ensures ok ==> Valid() && State() == Spend(old(State()), Charge(BytesBytes(length)))
    {
      hide DecimalText;
      var encoded := Base64EncodedBytes(length);
      if encoded.None? || 47 + encoded.value > USIZE_MAX {
        return false;
      }
      var digits := DecimalDigits(length);
      ok := AddCheckedBytes(Checked(47 + encoded.value + digits));
    }

    method MeasureBigNumber(number: int) returns (ok: bool)
      requires Valid()
      modifies this
      ensures ok <==> Bounded(number) && BigNumberBytes(number) <= old(State()).remainingBytes
      ensures ok ==> Valid() && State() == Spend(old(State()), Charge(BigNumberBytes(number)))
    {
      hide Bits;
      var bound := UpperBoundFromBits(Bits(Magnitude(number)));
      ok := AddCheckedBytes(if bound.None? then None else Checked(bound.value + 2));
    }

    /** The arms of `measure_json_value_into` that have no parts. */
    method MeasureScalar(v: Value) returns (ok: bool)
      requires Valid() && !IsComposite(v)
      modifies this
      ensures ok <==> SizeOf(v).bounded && ScalarBytes(v) <= old(State()).remainingBytes
      ensures ok ==> Valid() && State() == Spend(old(State()), Charge(ScalarBytes(v)))
    {
      hide Json.StringLength, DecimalText, Bits, BytesBytes, BigNumberBytes, Bounded;
      match v {
        case Nil => ok := AddBytes(4);
        case Int(number) =>
          var digits := SignedDecimalDigits(number);
          ok := AddBytes(digits);
        case BulkText(text) => ok := MeasureText(text);
        case BulkBytes(bytes) => ok := MeasureBytes(|bytes|);
        case SimpleString(text) => ok := MeasureText(text);
        case Okay => ok := AddBytes(4);
        case Double(float) => ok := AddBytes(FloatBytes(float));
        case Boolean(value) => ok := AddBytes(if value then 4 else 5);
        case VerbatimString(text) => ok := MeasureText(text);
        case BigNumber(number) => ok := MeasureBigNumber(number);
        case ServerError => ok := MeasureText("[redis-server-error]");
        case Unsupported => ok := MeasureText("[unsupported-resp-value]");
      }
    }

    /** `measure_json_value_into`. */
    method MeasureValue(v: Value, depth: nat) returns (ok: bool)
      requires Valid()
      modifies this
      ensures ok <==> Fits(old(State()), depth, SizeOf(v))
      ensures ok ==> Valid() && State() == Spend(old(State()), SizeOf(v))
      decreases v
    {
      hide ScalarBytes, BigNumberBytes, Bounded, SizeOfAll, SizeOfEntries, Gaps, Fits, Spend;
      ghost var start := State();
      ok := ConsumeNode(depth);
      if !ok {
        NodeComesFirst(start, depth, v);
        return;
      }
      match v {
        case Array(items) =>
          FitsAround(start, depth, Gaps(|items|), SizeOfAll(items));
          ok := MeasureArray(items, depth + 1);
        case SetOf(items) =>
          FitsAround(start, depth, Gaps(|items|), SizeOfAll(items));
          ok := MeasureArray(items, depth + 1);
        case Map(entries) =>
          FitsAround(start, depth, Gaps(|entries|), SizeOfEntries(entries));
          ok := MeasureEntries(entries, depth + 1);
        case Attribute(data, attributes) =>
          FitsAround(start, depth, 23 + Gaps(|attributes|), Plus(SizeOfEntries(attributes), SizeOf(data)));
          ok := MeasureAttribute(data, attributes, depth + 1);
        case Push(items) =>
          FitsAround(start, depth, 23 + Gaps(|items|), SizeOfAll(items));
          ok := MeasurePush(items, depth + 1);
        case _ =>
          FitsScalar(start, depth, v);
          ok := MeasureScalar(v);
      }
    }

    method MeasurePush(items: seq<Value>, depth: nat) returns (ok: bool)
      requires Valid() && depth <= MAX_REDIS_DEPTH
      modifies this
      ensures ok <==> Fits(old(State()), depth, Plus(Charge(23 + Gaps(|items|)), SizeOfAll(items)))
      ensures ok ==> Valid() && State() == Spend(old(State()), Plus(Charge(23 + Gaps(|items|)), SizeOfAll(items)))
      decreases items, 1
    {
      hide SizeOfAll;
      var gaps := Gaps(|items|);
      FitsInTurn(State(), depth, Charge(23), Plus(Charge(gaps), SizeOfAll(items)));
      assert Plus(Charge(23 + gaps), SizeOfAll(items)) == Plus(Charge(23), Plus(Charge(gaps), SizeOfAll(items)));
      ok := AddBytes(23);
      if ok {
        ok := MeasureArray(items, depth);
      }
    }

    method MeasureAttribute(data: Value, attributes: seq<Entry>, depth: nat) returns (ok: bool)
      requires Valid() && depth <= MAX_REDIS_DEPTH
      modifies this
      ensures ok <==> Fits(old(State()), depth, Plus(Charge(23 + Gaps(|attributes|)),
                                                     Plus(SizeOfEntries(attributes), SizeOf(data))))
      ensures ok ==> Valid() && State() == Spend(old(State()), Plus(Charge(23 + Gaps(|attributes|)),
                                                                   Plus(SizeOfEntries(attributes), SizeOf(data))))
      decreases Attribute(data, attributes), 0
    {
      hide SizeOf, SizeOfEntries;
      ghost var start := State();
      ghost var listed := Plus(Charge(Gaps(|attributes|)), SizeOfEntries(attributes));
      assert Plus(Charge(23 + Gaps(|attributes|)), Plus(SizeOfEntries(attributes), SizeOf(data)))
          == Plus(Charge(23), Plus(listed, SizeOf(data)));
      FitsInTurn(start, depth, Charge(23), Plus(listed, SizeOf(data)));
      ok := AddBytes(23);
      if !ok {
        return;
      }
      FitsInTurn(State(), depth, listed, SizeOf(data));
      ok := MeasureEntries(attributes, depth);
      if !ok {
        return;
      }
      ok := MeasureValue(data, depth);
    }

    /** `measure_json_array`. */
    method MeasureArray(items: seq<Value>, depth: nat) returns (ok: bool)
      requires Valid() && depth <= MAX_REDIS_DEPTH
      modifies this
      ensures ok <==> Fits(old(State()), depth, Plus(Charge(Gaps(|items|)), SizeOfAll(items)))
      ensures ok ==> Valid() && State() == Spend(old(State()), Plus(Charge(Gaps(|items|)), SizeOfAll(items)))
      decreases items, 0
    {
      hide SizeOf;
      ghost var start := State();
      ghost var total := Plus(Charge(Gaps(|items|)), SizeOfAll(items));
      ok := AddCheckedBytes(Checked(Gaps(|items|)));
      if !ok {
        return;
      }
      ghost var done := Charge(Gaps(|items|));
      var i := 0;
      while i < |items|
        invariant 0 <= i <= |items| && Valid()
        invariant Fits(start, depth, done) && State() == Spend(start, done)
        invariant total == Plus(done, SizeOfAll(items[i..]))
      {
        ghost var here := SizeOf(items[i]);
        assert items[i..][1..] == items[i + 1..];
        PlusAssociates(done, here, SizeOfAll(items[i + 1..]));
        FitsInTurn(start, depth, done, here);
        FitsInTurn(start, depth, Plus(done, here), SizeOfAll(items[i + 1..]));
        ok := MeasureValue(items[i], depth);
        if !ok {
          return;
        }
        done := Plus(done, here);
        i := i + 1;
      }
      assert items[i..] == [];
      PlusAssociates(done, NOTHING, NOTHING);
      return true;
    }

    method MeasureEntry(entry: Entry, depth: nat) returns (ok: bool)
      requires Valid() && depth <= MAX_REDIS_DEPTH
      modifies this
      ensures ok <==> Fits(old(State()), depth, SizeOfEntry(entry))
      ensures ok ==> Valid() && State() == Spend(old(State()), SizeOfEntry(entry))
      decreases entry
    {
      ghost var key, value := SizeOf(entry.key), SizeOf(entry.value);
      assert SizeOfEntry(entry) == Plus(Charge(17), Plus(key, value));
      hide SizeOf, SizeOfEntry;
      FitsInTurn(State(), depth, Charge(17), Plus(key, value));
      ok := AddBytes(17);
      if !ok {
        return;
      }
      FitsInTurn(State(), depth, key, value);
      ok := MeasureValue(entry.key, depth);
      if !ok {
        return;
      }
      ok := MeasureValue(entry.value, depth);
    }

    /** `measure_json_entries`. */
    method MeasureEntries(entries: seq<Entry>, depth: nat) returns (ok: bool)
      requires Valid() && depth <= MAX_REDIS_DEPTH
      modifies this
      ensures ok <==> Fits(old(State()), depth, Plus(Charge(Gaps(|entries|)), SizeOfEntries(entries)))
      ensures ok ==> Valid() && State() == Spend(old(State()), Plus(Charge(Gaps(|entries|)), SizeOfEntries(entries)))
      decreases entries
    {
      hide SizeOfEntry;
      ghost var start := State();
      ghost var total := Plus(Charge(Gaps(|entries|)), SizeOfEntries(entries));
      ok := AddCheckedBytes(Checked(Gaps(|entries|)));
      if !ok {
        return;
      }
      ghost var done := Charge(Gaps(|entries|));
      var i := 0;
      while i < |entries|
        invariant 0 <= i <= |entries| && Valid()
        invariant Fits(start, depth, done) && State() == Spend(start, done)
        invariant total == Plus(done, SizeOfEntries(entries[i..]))
      {
        ghost var here := SizeOfEntry(entries[i]);
        assert entries[i..][1..] == entries[i + 1..];
        PlusAssociates(done, here, SizeOfEntries(entries[i + 1..]));
        FitsInTurn(start, depth, done, here);
        FitsInTurn(start, depth, Plus(done, here), SizeOfEntries(entries[i + 1..]));
        ok := MeasureEntry(entries[i], depth);
        if !ok {
          return;
        }
        done := Plus(done, here);
        i := i + 1;
      }
      assert entries[i..] == [];
      PlusAssociates(done, NOTHING, NOTHING);
      return true;
    }
  }

  /**
   Whatever fits in a cell needs no further condition: a big number whose bound leaves the machine word is
   charged far more than a cell may hold.
   */
  lemma {:induction false} SmallValueIsBounded(v: Value)
    requires SizeOf(v).bytes <= MAX_REDIS_CELL_BYTES
    ensures SizeOf(v).bounded
    decreases v
  {
    hide BigNumberBytes, Bounded, ScalarBytes;
    match v {
      case Array(items) => SmallItemsAreBounded(items);
      case SetOf(items) => SmallItemsAreBounded(items);
      case Push(items) => SmallItemsAreBounded(items);
      case Map(entries) => SmallEntriesAreBounded(entries);
      case Attribute(data, attributes) =>
        SmallEntriesAreBounded(attributes);
        SmallValueIsBounded(data);
      case BigNumber(number) => SmallIsBounded(number);
      case _ =>
    }
  }

  lemma {:induction false} SmallItemsAreBounded(items: seq<Value>)
    requires SizeOfAll(items).bytes <= MAX_REDIS_CELL_BYTES
    ensures SizeOfAll(items).bounded
    decreases items
  {
    hide SizeOf;
    if items != [] {
      SmallValueIsBounded(items[0]);
      SmallItemsAreBounded(items[1..]);
    }
  }

  lemma SmallEntryIsBounded(entry: Entry)
    requires SizeOfEntry(entry).bytes <= MAX_REDIS_CELL_BYTES
    ensures SizeOfEntry(entry).bounded
    decreases entry
  {
    hide SizeOf;
    SmallValueIsBounded(entry.key);
    SmallValueIsBounded(entry.value);
  }

  lemma {:induction false} SmallEntriesAreBounded(entries: seq<Entry>)
    requires SizeOfEntries(entries).bytes <= MAX_REDIS_CELL_BYTES
    ensures SizeOfEntries(entries).bounded
    decreases entries
  {
    hide SizeOfEntry;
    if entries != [] {
      SmallEntryIsBounded(entries[0]);
      SmallEntriesAreBounded(entries[1..]);
    }
  }

  datatype CompositeMeasure = CompositeMeasure(nodes: nat, encodedBytes: nat)

  /**
   `measure_composite`: an answer exactly when the reply has at most eight levels, its values and its charge
   fit, and no big number's bound leaves the machine word, which under the limit of a cell cannot happen. The
   answer is its size, and bounds the bytes of the JSON that is then built.
   */
  method MeasureComposite(v: Value, remainingNodes: nat, byteLimit: nat) returns (measure: Option<CompositeMeasure>)
    requires remainingNodes <= USIZE_MAX && byteLimit <= USIZE_MAX
    ensures measure.Some? <==> && SizeOf(v).height <= MAX_REDIS_DEPTH && SizeOf(v).nodes <= remainingNodes
                               && SizeOf(v).bytes <= byteLimit && SizeOf(v).bounded
    ensures byteLimit <= MAX_REDIS_CELL_BYTES && SizeOf(v).bytes <= byteLimit ==> SizeOf(v).bounded
    ensures measure.Some? ==> measure.value == CompositeMeasure(SizeOf(v).nodes, SizeOf(v).bytes)
    ensures measure.Some? ==> Bounds(Json.TextBytes(DocumentOf(v)), measure.value.encodedBytes, SizeOf(v).exact)
  {
    hide SizeOf, Json.TextBytes, DocumentOf;
    ChargeBoundsText(v);
    ghost var bytes := SizeOf(v).bytes;
    if bytes <= MAX_REDIS_CELL_BYTES {
      SmallValueIsBounded(v);
    }
    var meter := new CompositeMeter(remainingNodes, byteLimit);
    var ok := meter.MeasureValue(v, 0);
    if !ok {
      return None;
    }
    return Some(CompositeMeasure(meter.nodes, meter.encodedBytes));
  }
}
