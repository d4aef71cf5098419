/** The counters of a retention agree with a recount of the nodes it holds. */
module CatalogRecount {
  import opened Catalog

  ghost function SchemasIn(ids: set<Identity>): set<Identity> {
    set id | id in ids && id.SchemaId?
  }

  ghost function RelationsIn(ids: set<Identity>): set<Identity> {
    set id | id in ids && id.RelationId?
  }

  ghost function ColumnsIn(ids: set<Identity>): set<Identity> {
    set id | id in ids && id.ColumnId?
  }

  ghost function ColumnsOf(ids: set<Identity>, key: RelationKey): set<Identity> {
    set id | id in ids && id.ColumnId? && id.key == key
  }

  /** The bytes of all nodes. */
  ghost function TotalBytes(held: map<Identity, Node>): nat {
    if held == map[] then 0
    else
      var id :| id in held;
      NodeBytes(held[id]) + TotalBytes(held - {id})
  }

  /** Any node may be counted first. */
  lemma {:induction false} TotalBytesAny(held: map<Identity, Node>, id: Identity)
    requires id in held
    ensures TotalBytes(held) == NodeBytes(held[id]) + TotalBytes(held - {id})
    decreases |held|
  {
    hide NodeBytes;
    var other :| other in held && TotalBytes(held) == NodeBytes(held[other]) + TotalBytes(held - {other});
    if other != id {
      TotalBytesAny(held - {other}, id);
      TotalBytesAny(held - {id}, other);
      assert held - {other} - {id} == held - {id} - {other};
    }
  }

  ghost predicate WithinCaps(r: Retained) {
    && r.schemas <= MAX_CATALOG_SCHEMAS && r.relations <= MAX_CATALOG_RELATIONS && r.columns <= MAX_CATALOG_COLUMNS
    && r.bytes <= MAX_CATALOG_UTF8_BYTES
    && forall key | key in r.columnsByRelation :: r.columnsByRelation[key] <= MAX_CATALOG_COLUMNS_PER_RELATION
  }

  ghost predicate ColumnsAgree(columns: map<RelationKey, nat>, ids: set<Identity>) {
    forall key ::
      && (key in columns <==> ColumnsOf(ids, key) != {})
      && (key in columns ==> columns[key] == |ColumnsOf(ids, key)|)
  }

  /** Every counter is what a recount of the held nodes gives, and every cap holds. */
  ghost predicate Describes(r: Retained, held: map<Identity, Node>) {
    && (forall id | id in held :: held[id].identity == id)
    && r.identities == held.Keys
    && r.schemas == |SchemasIn(held.Keys)|
    && r.relations == |RelationsIn(held.Keys)|
    && r.columns == |ColumnsIn(held.Keys)|
    && ColumnsAgree(r.columnsByRelation, held.Keys)
    && r.bytes == TotalBytes(held)
    && WithinCaps(r)
  }

  lemma NothingDescribed()
    ensures Describes(NOTHING, map[])
  {
    assert SchemasIn({}) == {} && RelationsIn({}) == {} && ColumnsIn({}) == {};
    assert forall key :: ColumnsOf({}, key) == {};
  }

  ghost function With(held: map<Identity, Node>, node: Node): map<Identity, Node> {
    held[node.identity := node]
  }

  // One identity more or less in each of the counted sets.

  lemma OneSchema(ids: set<Identity>, id: Identity)
    requires id !in ids
    ensures |SchemasIn(ids + {id})| == |SchemasIn(ids)| + (if id.SchemaId? then 1 else 0)
  {
    assert SchemasIn(ids + {id}) == SchemasIn(ids) + (if id.SchemaId? then {id} else {});
  }

  lemma OneRelation(ids: set<Identity>, id: Identity)
    requires id !in ids
    ensures |RelationsIn(ids + {id})| == |RelationsIn(ids)| + (if id.RelationId? then 1 else 0)
  {
    assert RelationsIn(ids + {id}) == RelationsIn(ids) + (if id.RelationId? then {id} else {});
  }

  lemma OneColumn(ids: set<Identity>, id: Identity)
    requires id !in ids
    ensures |ColumnsIn(ids + {id})| == |ColumnsIn(ids)| + (if id.ColumnId? then 1 else 0)
  {
    assert ColumnsIn(ids + {id}) == ColumnsIn(ids) + (if id.ColumnId? then {id} else {});
  }

  lemma OneColumnOf(ids: set<Identity>, id: Identity, key: RelationKey)
    requires id !in ids
    ensures |ColumnsOf(ids + {id}, key)| == |ColumnsOf(ids, key)| + (if id.ColumnId? && id.key == key then 1 else 0)
    ensures ColumnsOf(ids + {id}, key) == {} <==> ColumnsOf(ids, key) == {} && !(id.ColumnId? && id.key == key)
    ensures ColumnsOf(ids, key) == {} <==> |ColumnsOf(ids, key)| == 0
  {
    assert ColumnsOf(ids + {id}, key) == ColumnsOf(ids, key) + (if id.ColumnId? && id.key == key then {id} else {});
  }

  lemma ColumnsGrow(columns: map<RelationKey, nat>, ids: set<Identity>, id: Identity)
    requires id !in ids && ColumnsAgree(columns, ids)
    ensures ColumnsAgree(if id.ColumnId? then columns[id.key := ColumnsAt(columns, id.key) + 1] else columns, ids + {id})
  {
    hide ColumnsOf;
    forall key
      ensures |ColumnsOf(ids + {id}, key)| == |ColumnsOf(ids, key)| + (if id.ColumnId? && id.key == key then 1 else 0)
      ensures ColumnsOf(ids + {id}, key) == {} <==> ColumnsOf(ids, key) == {} && !(id.ColumnId? && id.key == key)
      ensures ColumnsOf(ids, key) == {} <==> |ColumnsOf(ids, key)| == 0
    {
      OneColumnOf(ids, id, key);
    }
  }

  lemma ColumnsShrink(columns: map<RelationKey, nat>, ids: set<Identity>, id: Identity)
    requires id in ids && ColumnsAgree(columns, ids)
    ensures ColumnsAgree(if id.ColumnId? then DropColumn(columns, id.key) else columns, ids - {id})
    ensures id.ColumnId? ==> id.key in columns && columns[id.key] >= 1
  {
    var fewer := ids - {id};
    assert fewer + {id} == ids;
    hide ColumnsOf;
    forall key
      ensures |ColumnsOf(ids, key)| == |ColumnsOf(fewer, key)| + (if id.ColumnId? && id.key == key then 1 else 0)
      ensures ColumnsOf(ids, key) == {} <==> ColumnsOf(fewer, key) == {} && !(id.ColumnId? && id.key == key)
      ensures ColumnsOf(fewer, key) == {} <==> |ColumnsOf(fewer, key)| == 0
    {
      OneColumnOf(fewer, id, key);
    }
  }

  /** Retaining a node keeps the recount right. */
  lemma AddedIsDescribed(r: Retained, held: map<Identity, Node>, node: Node)
    requires Describes(r, held) && Accepts(r, node)
    ensures Describes(Add(r, node), With(held, node))
  {
    hide NodeBytes, TotalBytes, SchemasIn, RelationsIn, ColumnsIn, ColumnsAgree;
    var id, ids := node.identity, held.Keys;
    var more := With(held, node);
    assert more.Keys == ids + {id};
    OneSchema(ids, id);
    OneRelation(ids, id);
    OneColumn(ids, id);
    ColumnsGrow(r.columnsByRelation, ids, id);
    TotalBytesAny(more, id);
    assert more - {id} == held;
  }

  /** Dropping a held node keeps the recount right, and no counter is clamped at zero. */
  lemma DroppedIsDescribed(r: Retained, held: map<Identity, Node>, node: Node)
    requires Describes(r, held) && node.identity in held && held[node.identity] == node
    ensures Describes(Dropped(r, node), held - {node.identity})
    ensures r.bytes >= NodeBytes(node)
    ensures match node.identity
            case SchemaId(_) => r.schemas >= 1
            case RelationId(_) => r.relations >= 1
            case ColumnId(key, _) => r.columns >= 1 && key in r.columnsByRelation && r.columnsByRelation[key] >= 1
  {
    hide NodeBytes, TotalBytes, SchemasIn, RelationsIn, ColumnsIn, ColumnsAgree;
    var id, ids := node.identity, held.Keys;
    var fewer := held - {id};
    assert fewer.Keys == ids - {id} && (ids - {id}) + {id} == ids;
    OneSchema(ids - {id}, id);
    OneRelation(ids - {id}, id);
    OneColumn(ids - {id}, id);
    ColumnsShrink(r.columnsByRelation, ids, id);
    TotalBytesAny(held, id);
  }

  // ---- lists ----

  ghost function WithAll(held: map<Identity, Node>, nodes: seq<Node>): map<Identity, Node> {
    if nodes == [] then held else With(WithAll(held, nodes[..|nodes| - 1]), nodes[|nodes| - 1])
  }

  ghost predicate DistinctNodes(nodes: seq<Node>) {
    forall i, j | 0 <= i < j < |nodes| :: nodes[i].identity != nodes[j].identity
  }

  lemma {:induction false} WithAllMeaning(held: map<Identity, Node>, nodes: seq<Node>)
    requires DistinctNodes(nodes)
    ensures forall id :: id in WithAll(held, nodes) <==> id in held || exists i | 0 <= i < |nodes| :: nodes[i].identity == id
    ensures forall i | 0 <= i < |nodes| :: nodes[i].identity in WithAll(held, nodes)
                                           && WithAll(held, nodes)[nodes[i].identity] == nodes[i]
    ensures forall id | id in held && (forall i | 0 <= i < |nodes| :: nodes[i].identity != id) ::
              WithAll(held, nodes)[id] == held[id]
  {
    if nodes != [] {
      WithAllMeaning(held, nodes[..|nodes| - 1]);
    }
  }

  /** What a list leaves: the nodes accepted are new, distinct, and added; the recount stays right. */
  lemma {:induction false} KeptIsDescribed(r: Retained, held: map<Identity, Node>, nodes: seq<Node>)
    requires Describes(r, held)
    ensures Describes(KeptAll(r, nodes), WithAll(held, Accepted(r, nodes)))
    ensures DistinctNodes(Accepted(r, nodes))
    ensures forall i | 0 <= i < |Accepted(r, nodes)| :: Accepted(r, nodes)[i].identity !in held
  {
    hide Accepts, Add, Describes, WithAll, With;
    if nodes == [] {
      assert WithAll(held, []) == held by {
        NothingAdded(held);
      }
    } else {
      var before, last := nodes[..|nodes| - 1], nodes[|nodes| - 1];
      KeptIsDescribed(r, held, before);
      var accepted := Accepted(r, before);
      if Accepts(KeptAll(r, before), last) {
        WithAllMeaning(held, accepted);
        AcceptedIsDescribed(KeptAll(r, before), WithAll(held, accepted), last);
        OneMoreAdded(held, accepted, last);
      } else {
        assert Accepted(r, nodes) == accepted;
      }
    }
  }

  lemma NothingAdded(held: map<Identity, Node>)
    ensures WithAll(held, []) == held
  {
  }

  lemma OneMoreAdded(held: map<Identity, Node>, nodes: seq<Node>, node: Node)
    ensures WithAll(held, nodes + [node]) == With(WithAll(held, nodes), node)
  {
    assert (nodes + [node])[..|nodes|] == nodes;
  }

  lemma AcceptedIsDescribed(r: Retained, held: map<Identity, Node>, node: Node)
    requires Describes(r, held) && Accepts(r, node)
    ensures node.identity !in held && Describes(Add(r, node), With(held, node))
  {
    AddedIsDescribed(r, held, node);
    hide NodeBytes, TotalBytes, WithinCaps, ColumnsAgree, Add;
  }

  ghost function IdentitiesOf(nodes: seq<Node>): set<Identity> {
    set i | 0 <= i < |nodes| :: nodes[i].identity
  }

  lemma {:induction false} DroppedAllIsDescribed(r: Retained, held: map<Identity, Node>, nodes: seq<Node>)
    requires Describes(r, held) && DistinctNodes(nodes)
    requires forall i | 0 <= i < |nodes| :: nodes[i].identity in held && held[nodes[i].identity] == nodes[i]
    ensures Describes(DroppedAll(r, nodes), held - IdentitiesOf(nodes))
  {
    hide Dropped, WithinCaps, ColumnsAgree, TotalBytes, Describes;
    if nodes == [] {
      assert held - IdentitiesOf(nodes) == held;
    } else {
      var before, last := nodes[..|nodes| - 1], nodes[|nodes| - 1];
      assert forall i | 0 <= i < |before| :: before[i] == nodes[i];
      DroppedAllIsDescribed(r, held, before);
      DroppedIsDescribed(DroppedAll(r, before), held - IdentitiesOf(before), last);
      assert IdentitiesOf(nodes) == IdentitiesOf(before) + {last.identity};
      assert held - IdentitiesOf(before) - {last.identity} == held - IdentitiesOf(nodes);
    }
  }

  lemma KeptIdentity(r: Retained, node: Node)
    ensures Kept(r, node).identities <= r.identities + {node.identity}
  {
    hide CanRetain;
  }

  /** New nodes that are not refused are all accepted. */
  lemma {:induction false} NotRefusedIsAccepted(r: Retained, nodes: seq<Node>)
    requires DistinctNodes(nodes) && forall i | 0 <= i < |nodes| :: nodes[i].identity !in r.identities
    ensures !Refuses(r, nodes) ==> Accepted(r, nodes) == nodes
    ensures |Accepted(r, nodes)| <= |nodes|
    ensures KeptAll(r, nodes).identities <= r.identities + IdentitiesOf(nodes)
  {
    hide Kept, CanRetain;
    if nodes != [] {
      var before, last := nodes[..|nodes| - 1], nodes[|nodes| - 1];
      NotRefusedIsAccepted(r, before);
      KeptIdentity(KeptAll(r, before), last);
      assert IdentitiesOf(nodes) == IdentitiesOf(before) + {last.identity};
      assert last.identity !in IdentitiesOf(before);
      assert before + [last] == nodes;
    }
  }
}
