/** The nodes of a MySQL catalog and the budget of how many of them are kept. */
module Catalog {
  import opened Wrappers
  import opened Numbers
  import Json

  const MAX_CATALOG_SCHEMAS: nat := 200
  const MAX_CATALOG_RELATIONS: nat := 2_000
  const MAX_CATALOG_COLUMNS: nat := 10_000
  const MAX_CATALOG_COLUMNS_PER_RELATION: nat := 512
  const MAX_CATALOG_UTF8_BYTES: nat := 4 * 1024 * 1024

  datatype RelationKey = RelationKey(schema: string, relation: string)

  datatype Identity =
    | SchemaId(schema: string)
    | RelationId(key: RelationKey)
    | ColumnId(key: RelationKey, ordinal: nat)

  datatype NodeKind = Schema | Table | View | Column

  datatype Node = Node(
    identity: Identity, kind: NodeKind, name: string, typeName: Option<string>, nullable: Option<bool>,
    ordinal: Option<nat>)

  datatype Counts = Counts(schemas: nat, relations: nat, columns: nat, columnsInRelation: nat)

  const NO_COUNTS := Counts(0, 0, 0, 0)

  /** `catalog_node_utf8_bytes`. */
  function NodeBytes(node: Node): nat {
    Json.ByteLen(node.name) + if node.typeName.Some? then Json.ByteLen(node.typeName.value) else 0
  }

  // ---- what is kept, as a value ----

  datatype Retained = Retained(
    identities: set<Identity>, schemas: nat, relations: nat, columns: nat, bytes: nat,
    columnsByRelation: map<RelationKey, nat>)

  const NOTHING := Retained({}, 0, 0, 0, 0, map[])

  function ColumnsAt(columns: map<RelationKey, nat>, key: RelationKey): nat {
    if key in columns then columns[key] else 0
  }

  /** `can_retain`. */
  predicate CanRetain(r: Retained, node: Node) {
    || node.identity in r.identities
    || (&& r.bytes + NodeBytes(node) <= MAX_CATALOG_UTF8_BYTES
        && match node.identity
           case SchemaId(_) => r.schemas < MAX_CATALOG_SCHEMAS
           case RelationId(_) => r.relations < MAX_CATALOG_RELATIONS
           case ColumnId(key, _) =>
             && r.columns < MAX_CATALOG_COLUMNS
             && ColumnsAt(r.columnsByRelation, key) < MAX_CATALOG_COLUMNS_PER_RELATION)
  }

  predicate Accepts(r: Retained, node: Node) {
    node.identity !in r.identities && CanRetain(r, node)
  }

  function Add(r: Retained, node: Node): Retained {
    var grown := r.(identities := r.identities + {node.identity}, bytes := r.bytes + NodeBytes(node));
    match node.identity
    case SchemaId(_) => grown.(schemas := r.schemas + 1)
    case RelationId(_) => grown.(relations := r.relations + 1)
    case ColumnId(key, _) =>
      grown.(columns := r.columns + 1,
             columnsByRelation := r.columnsByRelation[key := ColumnsAt(r.columnsByRelation, key) + 1])
  }

  function Kept(r: Retained, node: Node): Retained {
    if Accepts(r, node) then Add(r, node) else r
  }

  function DropColumn(columns: map<RelationKey, nat>, key: RelationKey): map<RelationKey, nat> {
    if key !in columns then columns
    else if columns[key] <= 1 then columns - {key}
    else columns[key := columns[key] - 1]
  }

  function Dropped(r: Retained, node: Node): Retained {
    if node.identity !in r.identities then r
    else
      var shrunk := r.(identities := r.identities - {node.identity}, bytes := SaturatingSub(r.bytes, NodeBytes(node)));
      match node.identity
      case SchemaId(_) => shrunk.(schemas := SaturatingSub(r.schemas, 1))
      case RelationId(_) => shrunk.(relations := SaturatingSub(r.relations, 1))
      case ColumnId(key, _) =>
        shrunk.(columns := SaturatingSub(r.columns, 1), columnsByRelation := DropColumn(r.columnsByRelation, key))
  }

  /** A list kept node by node, the last one last. */
  function KeptAll(r: Retained, nodes: seq<Node>): Retained {
    if nodes == [] then r else Kept(KeptAll(r, nodes[..|nodes| - 1]), nodes[|nodes| - 1])
  }

  /** The nodes of the list that are new and fit. */
  function Accepted(r: Retained, nodes: seq<Node>): seq<Node> {
    if nodes == [] then []
    else
      var before, last := nodes[..|nodes| - 1], nodes[|nodes| - 1];
      Accepted(r, before) + if Accepts(KeptAll(r, before), last) then [last] else []
  }

  /** A node of the list is new and does not fit. */
  predicate Refuses(r: Retained, nodes: seq<Node>) {
    nodes != []
    && var before, last := nodes[..|nodes| - 1], nodes[|nodes| - 1];
       Refuses(r, before) || !CanRetain(KeptAll(r, before), last)
  }

  function DroppedAll(r: Retained, nodes: seq<Node>): Retained {
    if nodes == [] then r else Dropped(DroppedAll(r, nodes[..|nodes| - 1]), nodes[|nodes| - 1])
  }

  /** The largest of the counts by relation; 0 where there are none. */
  ghost predicate IsLargest(columns: map<RelationKey, nat>, largest: nat) {
    && (forall key | key in columns :: columns[key] <= largest)
    && (columns == map[] ==> largest == 0)
    && (columns != map[] ==> exists key | key in columns :: columns[key] == largest)
  }

  // ---- the retention object ----

  datatype Outcome = Outcome(nodes: seq<Node>, counts: Counts, bytes: nat, truncated: bool)

  class CatalogRetention {
    var identities: set<Identity>
    var schemas: nat
    var relations: nat
    var columns: nat
    var retainedUtf8Bytes: nat
    var columnsByRelation: map<RelationKey, nat>

    function State(): Retained
      reads this
    {
      Retained(identities, schemas, relations, columns, retainedUtf8Bytes, columnsByRelation)
    }

    constructor ()
      ensures State() == NOTHING
    {
      identities, schemas, relations, columns, retainedUtf8Bytes, columnsByRelation := {}, 0, 0, 0, 0, map[];
    }

    constructor Restored(counts: Counts, bytes: nat, byRelation: map<RelationKey, nat>)
      ensures State() == Retained({}, counts.schemas, counts.relations, counts.columns, bytes, byRelation)
    {
      identities, schemas, relations, columns := {}, counts.schemas, counts.relations, counts.columns;
      retainedUtf8Bytes, columnsByRelation := bytes, byRelation;
    }

    method Clear()
      modifies this
      ensures State() == NOTHING
    {
      identities, schemas, relations, columns, retainedUtf8Bytes, columnsByRelation := {}, 0, 0, 0, 0, map[];
    }

    /** `counts`: the largest count by relation is found by looking at each. */
    method CurrentCounts() returns (counts: Counts)
      ensures counts == Counts(schemas, relations, columns, counts.columnsInRelation)
      ensures IsLargest(columnsByRelation, counts.columnsInRelation)
    {
      var largest := 0;
      var left := columnsByRelation.Keys;
      while left != {}
        invariant left <= columnsByRelation.Keys
        invariant forall key | key in columnsByRelation && key !in left :: columnsByRelation[key] <= largest
        invariant left == columnsByRelation.Keys ==> largest == 0
        invariant left != columnsByRelation.Keys ==> exists key | key in columnsByRelation :: columnsByRelation[key] == largest
        decreases left
      {
        var key :| key in left;
        if columnsByRelation[key] > largest || left == columnsByRelation.Keys {
          largest := columnsByRelation[key];
        }
        left := left - {key};
      }
      counts := Counts(schemas, relations, columns, largest);
    }

    /** `retain_one`: whether the node is accepted, and whether it is refused for a cap. */
    method RetainOne(node: Node) returns (accepted: bool, capReached: bool)
      modifies this
      ensures State() == Kept(old(State()), node)
      ensures accepted <==> Accepts(old(State()), node)
      ensures capReached <==> !CanRetain(old(State()), node)
      ensures !(accepted && capReached)
    {
      hide NodeBytes;
      if node.identity in identities {
        return false, false;
      }
      if !CanRetain(State(), node) {
        return false, true;
      }
      retainedUtf8Bytes := retainedUtf8Bytes + NodeBytes(node);
      match node.identity {
        case SchemaId(_) => schemas := schemas + 1;
        case RelationId(_) => relations := relations + 1;
        case ColumnId(key, _) =>
          columns := columns + 1;
          columnsByRelation := columnsByRelation[key := ColumnsAt(columnsByRelation, key) + 1];
      }
      identities := identities + {node.identity};
      return true, false;
    }

    /** `retain`. */
    method Retain(nodes: seq<Node>) returns (outcome: Outcome)
      modifies this
      ensures State() == KeptAll(old(State()), nodes)
      ensures outcome.nodes == Accepted(old(State()), nodes)
      ensures outcome.truncated <==> Refuses(old(State()), nodes)
      ensures outcome.bytes == retainedUtf8Bytes
      ensures outcome.counts == Counts(schemas, relations, columns, outcome.counts.columnsInRelation)
      ensures IsLargest(columnsByRelation, outcome.counts.columnsInRelation)
    {
      hide Kept, Accepts, CanRetain;
      var accepted: seq<Node> := [];
      var truncated := false;
      var i := 0;
      while i < |nodes|
        invariant 0 <= i <= |nodes|
        invariant State() == KeptAll(old(State()), nodes[..i])
        invariant accepted == Accepted(old(State()), nodes[..i])
        invariant truncated <==> Refuses(old(State()), nodes[..i])
      {
        assert nodes[..i + 1][..i] == nodes[..i];
        var taken, full := RetainOne(nodes[i]);
        if taken {
          accepted := accepted + [nodes[i]];
        } else if full {
          truncated := true;
        }
        i := i + 1;
      }
      assert nodes[..i] == nodes;
      var counts := CurrentCounts();
      outcome := Outcome(accepted, counts, retainedUtf8Bytes, truncated);
    }

    /** `remove`. */
    method Remove(nodes: seq<Node>)
      modifies this
      ensures State() == DroppedAll(old(State()), nodes)
    {
      hide NodeBytes;
      var i := 0;
      while i < |nodes|
        invariant 0 <= i <= |nodes|
        invariant State() == DroppedAll(old(State()), nodes[..i])
      {
        assert nodes[..i + 1][..i] == nodes[..i];
        var node := nodes[i];
        i := i + 1;
        if node.identity !in identities {
          continue;
        }
        identities := identities - {node.identity};
        retainedUtf8Bytes := SaturatingSub(retainedUtf8Bytes, NodeBytes(node));
        match node.identity {
          case SchemaId(_) => schemas := SaturatingSub(schemas, 1);
          case RelationId(_) => relations := SaturatingSub(relations, 1);
          case ColumnId(key, _) =>
            columns := SaturatingSub(columns, 1);
            if key in columnsByRelation {
              var count := SaturatingSub(columnsByRelation[key], 1);
              columnsByRelation := columnsByRelation[key := count];
              if count == 0 {
                columnsByRelation := columnsByRelation - {key};
              }
            }
        }
      }
      assert nodes[..i] == nodes;
    }
  }
}
