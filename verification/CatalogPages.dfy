/** Pages of a catalog listing, one continuation after the other. */
module CatalogPages {
  import opened Wrappers
  import opened Catalog
  import opened CatalogRecount
  import opened CatalogRequests
  import opened CatalogTokens
  import opened Numbers
  import Json

  // ---- the largest count by relation ----

  lemma {:induction false} LargestExists(columns: map<RelationKey, nat>) returns (largest: nat)
    ensures IsLargest(columns, largest)
    decreases |columns|
  {
    if columns == map[] {
      largest := 0;
    } else {
      var key :| key in columns;
      var rest := columns - {key};
      var most := LargestExists(rest);
      assert forall k | k in columns :: k == key || (k in rest && rest[k] == columns[k]);
      largest := if most > columns[key] then most else columns[key];
      if rest != map[] && most > columns[key] {
        var other :| other in rest && rest[other] == most;
        assert columns[other] == most;
      } else {
        assert columns[key] == largest;
      }
    }
  }

  ghost function Largest(columns: map<RelationKey, nat>): (largest: nat)
    ensures IsLargest(columns, largest)
  {
    assert exists n: nat :: IsLargest(columns, n) by {
      var n := LargestExists(columns);
    }
    var n: nat :| IsLargest(columns, n);
    n
  }

  ghost function CountsOf(r: Retained): Counts {
    Counts(r.schemas, r.relations, r.columns, Largest(r.columnsByRelation))
  }

  // ---- one page ----

  ghost function NextToken(codec: Codec, request: Request, more: bool, accepted: seq<Node>, counts: Counts, bytes: nat)
    : Option<string>
  {
    if more && |accepted| == request.pageSize && accepted != [] then
      Some(EncodeToken(codec, request, accepted[|accepted| - 1], counts, bytes))
    else None
  }

  /** `finish_page` as a value, from the retention it starts with. */
  ghost function PageFrom(codec: Codec, request: Request, base: Retained, fetched: seq<Node>): Page {
    var size := request.pageSize;
    var nodes := fetched[..Lesser(size, |fetched|)];
    var state := KeptAll(base, nodes);
    var fits := |fetched| <= size || CanRetain(state, fetched[size]);
    var truncated := Refuses(base, nodes) || !fits;
    Page(request.operationId, LevelOf(request.branch), ParentOf(request.branch), Accepted(base, nodes),
         NextToken(codec, request, |fetched| > size && !truncated, Accepted(base, nodes), CountsOf(state), state.bytes),
         CountsOf(state), state.bytes, truncated)
  }

  ghost function PageOf(codec: Codec, request: Request, decoded: Decoded, fetched: seq<Node>): Option<Page> {
    var base := FromCheckpoint(decoded.counts, decoded.bytes, RelationOf(request));
    if base.None? then None else Some(PageFrom(codec, request, base.value, fetched))
  }

  /** `finish_page`. */
  method FinishPage(codec: Codec, request: Request, decoded: Decoded, fetched: seq<Node>) returns (page: Option<Page>)
    ensures page == PageOf(codec, request, decoded, fetched)
  {
    hide Accepted, KeptAll, Refuses, CanRetain, IsLargest;
    var size := request.pageSize;
    var extra := if |fetched| > size then Some(fetched[size]) else None;
    var nodes := fetched[..Lesser(size, |fetched|)];
    var base := FromCheckpoint(decoded.counts, decoded.bytes, RelationOf(request));
    if base.None? {
      return None;
    }
    var checkpoint := base.value;
    var retention := new CatalogRetention.Restored(
      Counts(checkpoint.schemas, checkpoint.relations, checkpoint.columns, 0), checkpoint.bytes,
      checkpoint.columnsByRelation);
    assert retention.State() == checkpoint;
    var outcome := retention.Retain(nodes);
    OneLargest(retention.columnsByRelation, outcome.counts.columnsInRelation);
    var fits := extra.None? || CanRetain(retention.State(), extra.value);
    var truncated := outcome.truncated || (extra.Some? && !fits);
    var token: Option<string> := None;
    if extra.Some? && fits && !truncated && |outcome.nodes| == size && outcome.nodes != [] {
      token := Some(EncodeToken(codec, request, outcome.nodes[|outcome.nodes| - 1], outcome.counts, outcome.bytes));
    }
    return Some(Page(request.operationId, LevelOf(request.branch), ParentOf(request.branch), outcome.nodes, token,
                     outcome.counts, outcome.bytes, truncated));
  }

  lemma OneLargest(columns: map<RelationKey, nat>, largest: nat)
    requires IsLargest(columns, largest)
    ensures Largest(columns) == largest
  {
  }

  // ---- the listing the server answers from ----

  function LessBytes(a: seq<Json.Byte>, b: seq<Json.Byte>): bool {
    if b == [] then false
    else if a == [] then true
    else a[0] < b[0] || (a[0] == b[0] && LessBytes(a[1..], b[1..]))
  }

  lemma {:induction false} LessIsStrict(a: seq<Json.Byte>, b: seq<Json.Byte>)
    ensures !(LessBytes(a, b) && LessBytes(b, a)) && !LessBytes(a, a)
  {
    if a != [] {
      LessIsStrict(a[1..], if b == [] then [] else b[1..]);
    }
  }

  predicate LessName(a: string, b: string) {
    LessBytes(Json.Utf8(a), Json.Utf8(b))
  }

  function OrdinalOf(node: Node): Option<nat> {
    if node.identity.ColumnId? then Some(node.identity.ordinal) else None
  }

  /** The condition of the three queries: the node comes after the last one of the page before. */
  predicate ComesAfter(branch: BranchKey, lastName: string, lastOrdinal: Option<nat>, node: Node) {
    if branch.Columns? then
      var last := if lastOrdinal.Some? then lastOrdinal.value else 0;
      node.identity.ColumnId?
      && (node.identity.ordinal > last || (node.identity.ordinal == last && LessName(lastName, node.name)))
    else lastName == "" || LessName(lastName, node.name)
  }

  predicate Belongs(branch: BranchKey, node: Node) {
    match branch
    case Schemas => node.identity == SchemaId(node.name) && node.name != ""
    case Relations(schema) => node.identity == RelationId(RelationKey(schema, node.name)) && node.name != ""
    case Columns(key) => node.identity.ColumnId? && node.identity.key == key && node.identity.ordinal >= 1
  }

  /** A listing: the nodes of one branch, each after the one before, no two of them the same. */
  ghost predicate Listing(branch: BranchKey, list: seq<Node>) {
    && (forall i | 0 <= i < |list| :: Belongs(branch, list[i]))
    && (forall i, j | 0 <= i < j < |list| :: ComesAfter(branch, list[i].name, OrdinalOf(list[i]), list[j]))
    && DistinctNodes(list)
  }

  function Matching(branch: BranchKey, lastName: string, lastOrdinal: Option<nat>, list: seq<Node>): seq<Node> {
    if list == [] then []
    else
      (if ComesAfter(branch, lastName, lastOrdinal, list[0]) then [list[0]] else [])
      + Matching(branch, lastName, lastOrdinal, list[1..])
  }

  /** What the server returns: the nodes after the last, one more than a page at most. */
  function Fetch(request: Request, decoded: Decoded, list: seq<Node>): seq<Node> {
    var all := Matching(request.branch, decoded.lastName, decoded.lastOrdinal, list);
    all[..Lesser(|all|, request.pageSize + 1)]
  }

  lemma {:induction false} MatchingFrom(branch: BranchKey, lastName: string, lastOrdinal: Option<nat>, list: seq<Node>,
                                        k: nat)
    requires k <= |list|
    requires forall i | 0 <= i < k :: !ComesAfter(branch, lastName, lastOrdinal, list[i])
    requires forall i | k <= i < |list| :: ComesAfter(branch, lastName, lastOrdinal, list[i])
    ensures Matching(branch, lastName, lastOrdinal, list) == list[k..]
  {
    hide ComesAfter;
    if list != [] {
      MatchingFrom(branch, lastName, lastOrdinal, list[1..], if k == 0 then 0 else k - 1);
      if k == 0 {
        assert list[0..] == [list[0]] + list[1..];
      } else {
        assert list[1..][k - 1..] == list[k..];
      }
    }
  }

  /** What is fetched after the first `k` nodes, by the name and ordinal of the last of them. */
  ghost predicate ResumesAt(request: Request, decoded: Decoded, list: seq<Node>, k: nat) {
    k <= |list|
    && if k == 0 then decoded.lastName == "" && decoded.lastOrdinal == None
       else decoded.lastName == list[k - 1].name && decoded.lastOrdinal == OrdinalOf(list[k - 1])
  }

  lemma FetchResumes(request: Request, decoded: Decoded, list: seq<Node>, k: nat)
    requires Listing(request.branch, list) && ResumesAt(request, decoded, list, k)
    ensures Fetch(request, decoded, list) == list[k..Lesser(|list|, k + request.pageSize + 1)]
  {
    var branch := request.branch;
    forall i | 0 <= i < |list|
      ensures ComesAfter(branch, decoded.lastName, decoded.lastOrdinal, list[i]) <==> i >= k
    {
      if k > 0 {
        NotAfter(branch, list, i, k - 1);
      }
    }
    MatchingFrom(branch, decoded.lastName, decoded.lastOrdinal, list, k);
  }

  lemma NotAfter(branch: BranchKey, list: seq<Node>, i: nat, last: nat)
    requires Listing(branch, list) && i < |list| && last < |list|
    ensures ComesAfter(branch, list[last].name, OrdinalOf(list[last]), list[i]) <==> i > last
  {
    LessIsStrict(Json.Utf8(list[i].name), Json.Utf8(list[last].name));
    hide LessBytes, Json.Utf8;
    if i < last {
      assert ComesAfter(branch, list[i].name, OrdinalOf(list[i]), list[last]);
    }
  }
}
