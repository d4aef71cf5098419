/** What is refused: nodes, checkpoints and tokens, in terms of a recount, of the limits, and of the token's text. */
module CatalogLaws {
  import opened Wrappers
  import opened Catalog
  import opened CatalogRecount
  import opened CatalogRequests
  import opened CatalogTokens
  import opened CatalogPages
  import CatalogChains
  import opened Numbers
  import Json

  // ---- nodes ----

  /** A node counts for the bytes of its name and of its type, written one after the other. */
  lemma NodeBytesMeaning(node: Node)
    ensures NodeBytes(node) == |Json.Utf8(node.name + if node.typeName.Some? then node.typeName.value else "")|
  {
    var typeName := if node.typeName.Some? then node.typeName.value else "";
    Json.Utf8Append(node.name, typeName);
  }

  /** These nodes, counted one by one, are within every cap. */
  ghost predicate Allowed(held: map<Identity, Node>) {
    && |SchemasIn(held.Keys)| <= MAX_CATALOG_SCHEMAS && |RelationsIn(held.Keys)| <= MAX_CATALOG_RELATIONS
    && |ColumnsIn(held.Keys)| <= MAX_CATALOG_COLUMNS && TotalBytes(held) <= MAX_CATALOG_UTF8_BYTES
    && forall key :: |ColumnsOf(held.Keys, key)| <= MAX_CATALOG_COLUMNS_PER_RELATION
  }

  lemma ColumnCount(r: Retained, held: map<Identity, Node>, key: RelationKey)
    requires Describes(r, held)
    ensures ColumnsAt(r.columnsByRelation, key) == |ColumnsOf(held.Keys, key)| <= MAX_CATALOG_COLUMNS_PER_RELATION
  {
    hide TotalBytes, SchemasIn, RelationsIn, ColumnsIn;
  }

  /**
   A new node is refused exactly where holding it beside the nodes that are held would exceed a cap; one that is held
   is never refused.
   */
  lemma RoomMeaning(r: Retained, held: map<Identity, Node>, node: Node)
    requires Describes(r, held)
    ensures CanRetain(r, node) <==> node.identity in held || Allowed(With(held, node))
  {
    if node.identity !in held {
      var id, ids := node.identity, held.Keys;
      var more := With(held, node);
      assert more.Keys == ids + {id};
      OneSchema(ids, id);
      OneRelation(ids, id);
      OneColumn(ids, id);
      TotalBytesAny(more, id);
      assert more - {id} == held;
      forall key
        ensures |ColumnsOf(more.Keys, key)|
             == ColumnsAt(r.columnsByRelation, key) + (if id.ColumnId? && id.key == key then 1 else 0)
        ensures ColumnsAt(r.columnsByRelation, key) <= MAX_CATALOG_COLUMNS_PER_RELATION
      {
        ColumnCount(r, held, key);
        OneColumnOf(ids, id, key);
      }
      hide NodeBytes, TotalBytes, SchemasIn, RelationsIn, ColumnsIn, ColumnsOf, ColumnsAgree, ColumnsAt;
      if id.ColumnId? {
        assert |ColumnsOf(more.Keys, id.key)| == ColumnsAt(r.columnsByRelation, id.key) + 1;
      }
    }
  }

  // ---- the order of a listing, and what answers a request ----

  /** Bytes come before others that go on where they end, or are greater where they first differ. */
  lemma {:induction false} LessBytesMeaning(a: seq<Json.Byte>, b: seq<Json.Byte>)
    ensures LessBytes(a, b) <==> exists k :: 0 <= k <= |a| && k < |b| && FirstDiffer(a, b, k)
  {
    if b != [] && a != [] {
      LessBytesMeaning(a[1..], b[1..]);
      if a[0] == b[0] {
        if LessBytes(a, b) {
          var k :| 0 <= k <= |a[1..]| && k < |b[1..]| && FirstDiffer(a[1..], b[1..], k);
          assert a[..k + 1] == [a[0]] + a[1..][..k] && b[..k + 1] == [b[0]] + b[1..][..k];
          assert FirstDiffer(a, b, k + 1);
        } else if k :| 0 <= k <= |a| && k < |b| && FirstDiffer(a, b, k) {
          assert k > 0;
          assert a[1..][..k - 1] == a[..k][1..] && b[1..][..k - 1] == b[..k][1..];
          assert FirstDiffer(a[1..], b[1..], k - 1);
        }
      } else if k :| 0 <= k <= |a| && k < |b| && FirstDiffer(a, b, k) {
        assert k > 0 ==> a[..k][0] == b[..k][0];
      } else if a[0] < b[0] {
        assert FirstDiffer(a, b, 0);
      }
    } else if b != [] {
      assert FirstDiffer(a, b, 0);
    }
  }

  ghost predicate FirstDiffer(a: seq<Json.Byte>, b: seq<Json.Byte>, k: nat)
    requires k <= |a| && k < |b|
  {
    a[..k] == b[..k] && (k == |a| || a[k] < b[k])
  }

  /**
   A listing begins with any of its nodes, and goes on by the bytes of the names; columns, by their ordinals, and by the
   bytes of the names only among equal ones.
   */
  lemma OrderMeaning(branch: BranchKey, one: Node, other: Node)
    requires Belongs(branch, one) && Belongs(branch, other)
    ensures ComesAfter(branch, START.lastName, START.lastOrdinal, one)
    ensures branch.Schemas? ==> one.identity == SchemaId(one.name)
    ensures branch.Relations? ==> one.identity == RelationId(RelationKey(branch.schema, one.name))
    ensures branch.Columns? ==> one.identity == ColumnId(branch.key, one.identity.ordinal)
    ensures !branch.Columns? ==>
              (ComesAfter(branch, one.name, OrdinalOf(one), other) <==>
               LessBytes(Json.Utf8(one.name), Json.Utf8(other.name)))
    ensures branch.Columns? ==>
              (ComesAfter(branch, one.name, OrdinalOf(one), other) <==>
               || one.identity.ordinal < other.identity.ordinal
               || (one.identity.ordinal == other.identity.ordinal
                   && LessBytes(Json.Utf8(one.name), Json.Utf8(other.name))))
  {
    hide LessBytes, Json.Utf8;
  }

  /** A page names the operation, the level and the parent of its request, and has no more nodes than were asked for. */
  lemma AnswerMeaning(codec: Codec, request: Request, list: seq<Node>)
    requires CatalogChains.Answer(codec, request, list).Some?
    ensures var page := CatalogChains.Answer(codec, request, list).value;
            && page.operationId == request.operationId && |page.nodes| <= request.pageSize
            && match request.branch
               case Schemas => page.level == SchemaLevel && page.parent == None
               case Relations(schema) => page.level == RelationLevel && page.parent == Some(SchemaId(schema))
               case Columns(key) => page.level == ColumnLevel && page.parent == Some(RelationId(key))
  {
    hide Fetch, DecodeToken, FromCheckpoint, NextToken, CountsOf, CanRetain, Refuses, KeptAll;
    var decoded := CatalogChains.Position(codec, request).value;
    var base := FromCheckpoint(decoded.counts, decoded.bytes, RelationOf(request)).value;
    var fetched := Fetch(request, decoded, list);
    AcceptedIsNoMore(base, fetched[..Lesser(request.pageSize, |fetched|)]);
  }

  lemma {:induction false} AcceptedIsNoMore(r: Retained, nodes: seq<Node>)
    ensures |Accepted(r, nodes)| <= |nodes|
  {
    hide Accepts;
    if nodes != [] {
      AcceptedIsNoMore(r, nodes[..|nodes| - 1]);
    }
  }

  // ---- checkpoints and tokens ----

  /** A checkpoint is refused for a number above its cap, or for columns of a relation that is not listed. */
  lemma CheckpointMeaning(counts: Counts, bytes: nat, relation: Option<RelationKey>)
    ensures FromCheckpoint(counts, bytes, relation).Some?
       <==> && counts.schemas <= MAX_CATALOG_SCHEMAS && counts.relations <= MAX_CATALOG_RELATIONS
            && counts.columns <= MAX_CATALOG_COLUMNS && counts.columnsInRelation <= MAX_CATALOG_COLUMNS_PER_RELATION
            && bytes <= MAX_CATALOG_UTF8_BYTES && (counts.columnsInRelation == 0 || relation.Some?)
    ensures FromCheckpoint(counts, bytes, relation).Some? ==>
              var r := FromCheckpoint(counts, bytes, relation).value;
              && r.schemas == counts.schemas && r.relations == counts.relations && r.columns == counts.columns
              && r.bytes == bytes && r.identities == {} && WithinCaps(r)
              && forall key :: ColumnsAt(r.columnsByRelation, key)
                               == if relation == Some(key) then counts.columnsInRelation else 0
  {
  }

  lemma {:induction false} SplitRejoins(text: string)
    ensures |Split(text)| == 1 ==> text == Split(text)[0]
    ensures |Split(text)| > 1 ==> exists rest :: text == Split(text)[0] + "." + rest && Split(rest) == Split(text)[1..]
  {
    if text != [] {
      var rest := Split(text[1..]);
      SplitRejoins(text[1..]);
      if text[0] == '.' {
        assert text == "" + "." + text[1..];
        assert Split(text)[1..] == rest;
      } else {
        assert text == [text[0]] + text[1..];
        if |rest| > 1 {
          var tail :| text[1..] == rest[0] + "." + tail && Split(tail) == rest[1..];
          assert text == [text[0]] + rest[0] + "." + tail;
          assert Split(text)[1..] == rest[1..];
        }
      }
    }
  }

  lemma ThreeRejoin(text: string)
    requires |Split(text)| == 3
    ensures text == Joined(Split(text)[0], Split(text)[1], Split(text)[2])
  {
    SplitRejoins(text);
    var parts := Split(text);
    var rest :| text == parts[0] + "." + rest && Split(rest) == parts[1..];
    SplitRejoins(rest);
    var last :| rest == parts[1] + "." + last && Split(last) == Split(rest)[1..];
    SplitRejoins(last);
    assert Split(last)[0] == parts[2];
    assert parts[0] + "." + (parts[1] + "." + parts[2]) == Joined(parts[0], parts[1], parts[2]);
  }

  /**
   A token is accepted only if it is a payload under its own signature, of this version, for this very listing and
   page size, with a checkpoint that is not refused; and then it says what its payload says.
   */
  lemma AcceptedToken(codec: Codec, request: Request, token: string) returns (encoded: string, payload: Payload)
    requires DecodeToken(codec, request, token).Some?
    ensures token == "v1." + encoded + "." + codec.sign(encoded) && codec.decode(encoded) == Some(payload)
    ensures payload.version == 1 && payload.profile == request.profile && payload.generation == request.generation
    ensures payload.branch == request.branch && payload.prefix == request.prefix && payload.pageSize == request.pageSize
    ensures payload.lastOrdinal.Some? <==> request.branch.Columns?
    ensures FromCheckpoint(payload.counts, payload.bytes, RelationOf(request)).Some?
    ensures DecodeToken(codec, request, token)
         == Some(Decoded(payload.lastName, payload.lastOrdinal, payload.counts, payload.bytes))
  {
    var parts := Split(token);
    ThreeRejoin(token);
    encoded, payload := parts[1], codec.decode(parts[1]).value;
    hide Split, FromCheckpoint;
    assert token == "v1" + "." + encoded + "." + codec.sign(encoded);
    assert "v1" + "." == "v1.";
  }
}
