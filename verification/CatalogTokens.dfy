/** Continuation tokens: what a page says about where the next begins and what is already kept. */
module CatalogTokens {
  import opened Wrappers
  import opened Catalog
  import opened CatalogRequests

  const TOKEN_VERSION: nat := 1

  datatype Payload = Payload(
    version: nat, profile: string, generation: nat, branch: BranchKey, prefix: Option<string>, pageSize: nat,
    lastName: string, lastOrdinal: Option<nat>, counts: Counts, bytes: nat)

  datatype Decoded = Decoded(lastName: string, lastOrdinal: Option<nat>, counts: Counts, bytes: nat)

  const START := Decoded("", None, NO_COUNTS, 0)

  /** The serializer with its text encoding, and the signature of an encoded payload. */
  datatype Codec = Codec(encode: Payload -> string, decode: string -> Option<Payload>, sign: string -> string)

  ghost predicate Sound(codec: Codec) {
    && (forall payload :: codec.decode(codec.encode(payload)) == Some(payload))
    && (forall payload :: '.' !in codec.encode(payload))
    && (forall text :: '.' !in codec.sign(text))
  }

  /** `str::split` at dots. */
  function Split(text: string): (parts: seq<string>)
    ensures parts != []
  {
    if text == [] then [""]
    else
      var rest := Split(text[1..]);
      if text[0] == '.' then [""] + rest else [[text[0]] + rest[0]] + rest[1..]
  }

  function Joined(a: string, b: string, c: string): string {
    a + "." + b + "." + c
  }

  lemma {:induction false} SplitWhole(text: string)
    requires '.' !in text
    ensures Split(text) == [text]
  {
    if text != [] {
      SplitWhole(text[1..]);
      assert [text[0]] + text[1..] == text;
    }
  }

  lemma {:induction false} SplitFirst(first: string, rest: string)
    requires '.' !in first
    ensures Split(first + "." + rest) == [first] + Split(rest)
  {
    var text := first + "." + rest;
    if first == [] {
      assert text == "." + rest;
      assert text[1..] == rest;
    } else {
      SplitFirst(first[1..], rest);
      assert text[1..] == first[1..] + "." + rest;
      assert [first[0]] + first[1..] == first;
    }
  }

  lemma SplitJoined(a: string, b: string, c: string)
    requires '.' !in a && '.' !in b && '.' !in c
    ensures Split(Joined(a, b, c)) == [a, b, c]
  {
    assert Joined(a, b, c) == a + "." + (b + "." + c);
    SplitFirst(a, b + "." + c);
    SplitFirst(b, c);
    SplitWhole(c);
  }

  function PayloadOf(request: Request, last: Node, counts: Counts, bytes: nat): Payload {
    Payload(TOKEN_VERSION, request.profile, request.generation, request.branch, request.prefix, request.pageSize,
            last.name, if last.identity.ColumnId? then Some(last.identity.ordinal) else None, counts, bytes)
  }

  /** `encode_page_token`. */
  function EncodeToken(codec: Codec, request: Request, last: Node, counts: Counts, bytes: nat): string {
    var payload := codec.encode(PayloadOf(request, last, counts, bytes));
    Joined("v1", payload, codec.sign(payload))
  }

  function RelationOf(request: Request): Option<RelationKey> {
    if request.branch.Columns? then Some(request.branch.key) else None
  }

  /** `from_checkpoint`; `None` is the error for an invalid request. */
  function FromCheckpoint(counts: Counts, bytes: nat, relation: Option<RelationKey>): Option<Retained> {
    if || counts.schemas > MAX_CATALOG_SCHEMAS || counts.relations > MAX_CATALOG_RELATIONS
       || counts.columns > MAX_CATALOG_COLUMNS || counts.columnsInRelation > MAX_CATALOG_COLUMNS_PER_RELATION
       || bytes > MAX_CATALOG_UTF8_BYTES
    then None
    else if counts.columnsInRelation > 0 && relation.None? then None
    else
      Some(Retained({}, counts.schemas, counts.relations, counts.columns, bytes,
                    if counts.columnsInRelation > 0 then map[relation.value := counts.columnsInRelation] else map[]))
  }

  predicate Fits(request: Request, payload: Payload) {
    && payload.version == TOKEN_VERSION && payload.profile == request.profile
    && payload.generation == request.generation && payload.branch == request.branch
    && payload.prefix == request.prefix && payload.pageSize == request.pageSize
    && (request.branch.Columns? <==> payload.lastOrdinal.Some?)
  }

  /** `decode_page_token`; `None` is the error for an invalid request. */
  function DecodeToken(codec: Codec, request: Request, token: string): Option<Decoded> {
    var parts := Split(token);
    if |parts| != 3 || parts[0] != "v1" then None
    else if parts[2] != codec.sign(parts[1]) then None
    else
      var payload := codec.decode(parts[1]);
      if payload.None? || !Fits(request, payload.value) then None
      else if FromCheckpoint(payload.value.counts, payload.value.bytes, RelationOf(request)).None? then None
      else Some(Decoded(payload.value.lastName, payload.value.lastOrdinal, payload.value.counts, payload.value.bytes))
  }

  /** Every token decodes, for the request it was issued to, to what was encoded, where a checkpoint can be made. */
  lemma TokenRoundTrip(codec: Codec, request: Request, last: Node, counts: Counts, bytes: nat)
    requires Sound(codec) && (request.branch.Columns? <==> last.identity.ColumnId?)
    requires FromCheckpoint(counts, bytes, RelationOf(request)).Some?
    ensures DecodeToken(codec, request, EncodeToken(codec, request, last, counts, bytes))
         == Some(Decoded(last.name, if last.identity.ColumnId? then Some(last.identity.ordinal) else None, counts, bytes))
  {
    var payload := codec.encode(PayloadOf(request, last, counts, bytes));
    assert '.' !in "v1";
    SplitJoined("v1", payload, codec.sign(payload));
  }

  /** The requests list the same thing for the same profile, page by page alike. */
  predicate Alike(one: Request, other: Request) {
    && one.profile == other.profile && one.generation == other.generation && one.branch == other.branch
    && one.prefix == other.prefix && one.pageSize == other.pageSize
  }

  /** A token that decodes for a request decodes exactly for the requests like it, and to the same. */
  lemma TokenNamesItsRequest(codec: Codec, one: Request, other: Request, token: string)
    requires DecodeToken(codec, one, token).Some?
    ensures DecodeToken(codec, other, token).Some? <==> Alike(one, other)
    ensures Alike(one, other) ==> DecodeToken(codec, one, token) == DecodeToken(codec, other, token)
  {
    hide Split;
  }
}
