/** The catalog explorer: branches of nodes, what is asked for, and the retention they share. */
module MysqlExplorer {
  import opened Wrappers
  import opened Catalog
  import opened CatalogRecount
  import opened CatalogRequests
  import opened CatalogSelection

  datatype Branch = Branch(nodes: seq<Node>, continuation: Option<Request>, truncated: bool, stale: bool)

  const EMPTY_BRANCH := Branch([], None, false, false)

  datatype Pending = Pending(request: Request, append: bool)

  /** `BranchKey::for_page`. */
  function KeyFor(page: Page): Option<BranchKey> {
    match (page.level, page.parent)
    case (SchemaLevel, None) => Some(Schemas)
    case (RelationLevel, Some(SchemaId(schema))) => Some(Relations(schema))
    case (ColumnLevel, Some(RelationId(key))) => Some(Columns(key))
    case _ => None
  }

  // ---- the state as a value, and its events ----

  datatype ExplorerView = ExplorerView(
    branches: map<BranchKey, Branch>, pending: map<nat, Pending>, retry: Option<Request>, lastError: Option<string>,
    retained: Retained)

  const INITIAL := ExplorerView(map[], map[], None, None, NOTHING)

  function BranchAt(branches: map<BranchKey, Branch>, key: BranchKey): Branch {
    if key in branches then branches[key] else EMPTY_BRANCH
  }

  function Submitted(v: ExplorerView, request: Request): ExplorerView {
    v.(pending := v.pending[request.operationId := Pending(request, request.pageToken.Some?)], lastError := None)
  }

  function PendingFor(v: ExplorerView, page: Page): Option<Pending> {
    if page.operationId in v.pending then Some(v.pending[page.operationId]) else None
  }

  /** The page answers a request for another level, or belongs to no branch. */
  predicate Ignored(v: ExplorerView, page: Page) {
    (PendingFor(v, page).Some? && LevelOf(PendingFor(v, page).value.request.branch) != page.level)
    || KeyFor(page).None?
  }

  predicate Appends(v: ExplorerView, page: Page) {
    PendingFor(v, page).Some? && PendingFor(v, page).value.append
  }

  /** The retention a page's nodes meet: without the nodes they replace. */
  function Base(v: ExplorerView, page: Page): Retained
    requires KeyFor(page).Some?
  {
    if Appends(v, page) then v.retained else DroppedAll(v.retained, BranchAt(v.branches, KeyFor(page).value).nodes)
  }

  function NodesBefore(v: ExplorerView, page: Page): seq<Node>
    requires KeyFor(page).Some?
  {
    if Appends(v, page) then BranchAt(v.branches, KeyFor(page).value).nodes else []
  }

  function Continuation(v: ExplorerView, page: Page): Option<Request> {
    if PendingFor(v, page).None? || page.nextToken.None? then None
    else Some(PendingFor(v, page).value.request.(pageToken := page.nextToken))
  }

  function Loaded(v: ExplorerView, page: Page): ExplorerView {
    var answered := v.(pending := v.pending - {page.operationId});
    if Ignored(v, page) then answered
    else
      var key, base := KeyFor(page).value, Base(v, page);
      var truncated := page.truncated || Refuses(base, page.nodes);
      var branch := Branch(NodesBefore(v, page) + Accepted(base, page.nodes),
                           if truncated then None else Continuation(v, page), truncated, false);
      answered.(branches := v.branches[key := branch], retained := KeptAll(base, page.nodes), retry := None,
                lastError := None)
  }

  function Failed(v: ExplorerView, request: Request, summary: string): ExplorerView {
    var key := request.branch;
    v.(pending := v.pending - {request.operationId},
       branches := if key in v.branches then v.branches[key := v.branches[key].(stale := true)] else v.branches,
       retry := Some(request), lastError := Some(summary))
  }

  datatype Event =
    | Submit(request: Request)
    | Load(page: Page)
    | Fail(failed: Request, summary: string)
    | Dismiss
    | Clear

  function Apply(v: ExplorerView, event: Event): ExplorerView {
    match event
    case Submit(request) => Submitted(v, request)
    case Load(page) => Loaded(v, page)
    case Fail(request, summary) => Failed(v, request, summary)
    case Dismiss => v.(lastError := None)
    case Clear => INITIAL
  }

  /** Any events, in any order. */
  function Run(events: seq<Event>): ExplorerView {
    if events == [] then INITIAL else Apply(Run(events[..|events| - 1]), events[|events| - 1])
  }

  // ---- the nodes shown are the nodes held ----

  /** The branch shows the node at position `i`. */
  ghost predicate At(branches: map<BranchKey, Branch>, key: BranchKey, i: int, node: Node) {
    0 <= i < |BranchAt(branches, key).nodes| && BranchAt(branches, key).nodes[i] == node
  }

  ghost predicate Shows(branches: map<BranchKey, Branch>, held: map<Identity, Node>) {
    && (forall key, i, node | At(branches, key, i, node) :: node.identity in held && held[node.identity] == node)
    && (forall id | id in held :: held[id].identity == id && exists key, i :: At(branches, key, i, held[id]))
  }

  /** No identity is shown twice, in one branch or in two. */
  ghost predicate ShownOnce(branches: map<BranchKey, Branch>) {
    forall key, i, node, other, j, twin |
      At(branches, key, i, node) && At(branches, other, j, twin) && node.identity == twin.identity ::
      key == other && i == j
  }

  /** The retention describes exactly the nodes of the branches. */
  ghost predicate Recounted(v: ExplorerView, held: map<Identity, Node>) {
    Describes(v.retained, held) && Shows(v.branches, held) && ShownOnce(v.branches)
  }

  ghost predicate Consistent(v: ExplorerView) {
    exists held :: Recounted(v, held)
  }

  lemma ShownNodes(branches: map<BranchKey, Branch>, held: map<Identity, Node>, key: BranchKey)
    requires Shows(branches, held) && ShownOnce(branches)
    ensures DistinctNodes(BranchAt(branches, key).nodes)
    ensures forall i | 0 <= i < |BranchAt(branches, key).nodes| ::
              var node := BranchAt(branches, key).nodes[i]; node.identity in held && held[node.identity] == node
  {
    var nodes := BranchAt(branches, key).nodes;
    forall i | 0 <= i < |nodes|
      ensures nodes[i].identity in held && held[nodes[i].identity] == nodes[i]
    {
      assert At(branches, key, i, nodes[i]);
    }
    forall i, j | 0 <= i < j < |nodes|
      ensures nodes[i].identity != nodes[j].identity
    {
      assert At(branches, key, i, nodes[i]) && At(branches, key, j, nodes[j]);
    }
  }

  lemma AtCleared(branches: map<BranchKey, Branch>, key: BranchKey, fewer: map<BranchKey, Branch>)
    requires key in fewer && fewer == branches[key := fewer[key]] && fewer[key].nodes == []
    ensures forall other, i, node :: At(fewer, other, i, node) <==> other != key && At(branches, other, i, node)
  {
    forall other, i, node
      ensures At(fewer, other, i, node) <==> other != key && At(branches, other, i, node)
    {
      assert other != key ==> BranchAt(fewer, other) == BranchAt(branches, other);
    }
  }

  lemma ReplacedNodes(branches: map<BranchKey, Branch>, held: map<Identity, Node>, key: BranchKey,
                      fewer: map<BranchKey, Branch>)
    requires Shows(branches, held) && ShownOnce(branches)
    requires key in fewer && fewer == branches[key := fewer[key]] && fewer[key].nodes == []
    ensures Shows(fewer, held - IdentitiesOf(BranchAt(branches, key).nodes)) && ShownOnce(fewer)
  {
    AtCleared(branches, key, fewer);
    var nodes := BranchAt(branches, key).nodes;
    var left := held - IdentitiesOf(nodes);
    forall j | 0 <= j < |nodes|
      ensures At(branches, key, j, nodes[j])
    {
    }
    hide BranchAt, At;
    forall other, i, node | At(fewer, other, i, node)
      ensures node.identity in left && left[node.identity] == node
    {
      assert At(branches, other, i, node);
    }
    hide IdentitiesOf;
    forall id | id in left
      ensures exists other, i :: At(fewer, other, i, left[id])
    {
      ClearedElsewhere(branches, held, key, fewer, id);
    }
  }

  lemma ClearedElsewhere(branches: map<BranchKey, Branch>, held: map<Identity, Node>, key: BranchKey,
                         fewer: map<BranchKey, Branch>, id: Identity)
    requires Shows(branches, held) && key in fewer && fewer == branches[key := fewer[key]] && fewer[key].nodes == []
    requires id in held && id !in IdentitiesOf(BranchAt(branches, key).nodes)
    ensures exists other, i :: At(fewer, other, i, held[id])
  {
    AtCleared(branches, key, fewer);
    var other, i :| At(branches, other, i, held[id]);
    var nodes := BranchAt(branches, key).nodes;
    assert forall j | 0 <= j < |nodes| :: nodes[j].identity in IdentitiesOf(nodes);
    assert At(fewer, other, i, held[id]);
  }

  ghost predicate AtMore(more: seq<Node>, offset: int, i: int, node: Node) {
    0 <= i - offset < |more| && more[i - offset] == node
  }

  ghost predicate Extends(branches: map<BranchKey, Branch>, after: map<BranchKey, Branch>, key: BranchKey,
                          more: seq<Node>, offset: int)
  {
    forall other, i, node ::
      At(after, other, i, node) <==> At(branches, other, i, node) || (other == key && AtMore(more, offset, i, node))
  }

  lemma AtExtended(branches: map<BranchKey, Branch>, key: BranchKey, grown: Branch, more: seq<Node>)
    requires grown.nodes == BranchAt(branches, key).nodes + more
    ensures Extends(branches, branches[key := grown], key, more, |BranchAt(branches, key).nodes|)
  {
    var after, before := branches[key := grown], BranchAt(branches, key).nodes;
    forall other, i, node
      ensures At(after, other, i, node)
         <==> At(branches, other, i, node) || (other == key && AtMore(more, |before|, i, node))
    {
      if other == key {
        assert BranchAt(after, key).nodes == before + more;
      }
    }
  }

  /** `all` is `held` and the nodes added at their positions behind `offset` nodes. */
  ghost predicate Adds(held: map<Identity, Node>, all: map<Identity, Node>, more: seq<Node>, offset: int) {
    && (forall i, node | AtMore(more, offset, i, node) ::
          node.identity in all && all[node.identity] == node && node.identity !in held)
    && (forall i, node, j, twin |
          AtMore(more, offset, i, node) && AtMore(more, offset, j, twin) && twin.identity == node.identity :: i == j)
    && (forall id | id in all && id !in held :: all[id].identity == id && exists i :: AtMore(more, offset, i, all[id]))
    && (forall id | id in held :: id in all && all[id] == held[id])
  }

  lemma MoreAdded(held: map<Identity, Node>, more: seq<Node>, offset: int)
    requires DistinctNodes(more) && forall i | 0 <= i < |more| :: more[i].identity !in held
    ensures Adds(held, WithAll(held, more), more, offset)
  {
    WithAllMeaning(held, more);
    hide WithAll;
    var all := WithAll(held, more);
    forall id | id in all && id !in held
      ensures all[id].identity == id && exists i :: AtMore(more, offset, i, all[id])
    {
      var i :| 0 <= i < |more| && more[i].identity == id;
      assert AtMore(more, offset, i + offset, all[id]);
    }
  }

  lemma ShowsAfter(branches: map<BranchKey, Branch>, held: map<Identity, Node>, key: BranchKey,
                   after: map<BranchKey, Branch>, all: map<Identity, Node>, more: seq<Node>, offset: int)
    requires Shows(branches, held) && ShownOnce(branches)
    requires Extends(branches, after, key, more, offset) && Adds(held, all, more, offset)
    ensures Shows(after, all) && ShownOnce(after)
  {
    hide At, AtMore;
    forall id | id in all
      ensures exists other, i :: At(after, other, i, all[id])
    {
      if id in held {
        var other, i :| At(branches, other, i, held[id]);
        assert At(after, other, i, all[id]);
      } else {
        var i :| AtMore(more, offset, i, all[id]);
        assert At(after, key, i, all[id]);
      }
    }
  }

  lemma ExtendedNodes(branches: map<BranchKey, Branch>, held: map<Identity, Node>, key: BranchKey, grown: Branch,
                      more: seq<Node>)
    requires Shows(branches, held) && ShownOnce(branches) && DistinctNodes(more)
    requires forall i | 0 <= i < |more| :: more[i].identity !in held
    requires grown.nodes == BranchAt(branches, key).nodes + more
    ensures Shows(branches[key := grown], WithAll(held, more)) && ShownOnce(branches[key := grown])
  {
    hide *;
    AtExtended(branches, key, grown, more);
    MoreAdded(held, more, |BranchAt(branches, key).nodes|);
    ShowsAfter(branches, held, key, branches[key := grown], WithAll(held, more), more,
               |BranchAt(branches, key).nodes|);
  }

  lemma LoadedIsRecounted(v: ExplorerView, held: map<Identity, Node>, page: Page) returns (after: map<Identity, Node>)
    requires Recounted(v, held)
    ensures Recounted(Loaded(v, page), after)
  {
    hide Describes, Shows, ShownOnce, Accepted, KeptAll, DroppedAll, Refuses, WithAll;
    if Ignored(v, page) {
      after := held;
    } else {
      var key, base := KeyFor(page).value, Base(v, page);
      var cleared, left := v.branches, held;
      if !Appends(v, page) {
        cleared := v.branches[key := EMPTY_BRANCH];
        left := held - IdentitiesOf(BranchAt(v.branches, key).nodes);
        ShownNodes(v.branches, held, key);
        ReplacedNodes(v.branches, held, key, cleared);
        DroppedAllIsDescribed(v.retained, held, BranchAt(v.branches, key).nodes);
      }
      var more := Accepted(base, page.nodes);
      KeptIsDescribed(base, left, page.nodes);
      after := WithAll(left, more);
      var grown := Loaded(v, page).branches[key];
      ExtendedNodes(cleared, left, key, grown, more);
      assert cleared[key := grown] == v.branches[key := grown];
    }
  }

  lemma FailedIsRecounted(v: ExplorerView, held: map<Identity, Node>, request: Request, summary: string)
    requires Recounted(v, held)
    ensures Recounted(Failed(v, request, summary), held)
  {
    hide Describes;
    var branches := Failed(v, request, summary).branches;
    assert forall key :: BranchAt(branches, key).nodes == BranchAt(v.branches, key).nodes;
    assert forall key, i, node :: At(branches, key, i, node) <==> At(v.branches, key, i, node);
    hide At;
  }

  lemma EventKeepsCounts(v: ExplorerView, event: Event)
    requires Consistent(v)
    ensures Consistent(Apply(v, event))
  {
    hide Recounted, Loaded, Failed;
    var held :| Recounted(v, held);
    match event {
      case Submit(request) => RecountedAlike(v, Submitted(v, request), held);
      case Load(page) => var after := LoadedIsRecounted(v, held, page);
      case Fail(request, summary) => FailedIsRecounted(v, held, request, summary);
      case Dismiss => RecountedAlike(v, v.(lastError := None), held);
      case Clear => InitialIsRecounted();
    }
  }

  lemma RecountedAlike(v: ExplorerView, w: ExplorerView, held: map<Identity, Node>)
    requires Recounted(v, held) && v.branches == w.branches && v.retained == w.retained
    ensures Recounted(w, held)
  {
  }

  lemma InitialIsRecounted()
    ensures Recounted(INITIAL, map[])
  {
    NothingDescribed();
  }

  /**
   After any events: no identity is shown twice, and the counts, the counts by relation and the bytes of the
   retention are those of the nodes shown, within every cap.
   */
  lemma {:induction false} CountsAgreeAfterAnyEvents(events: seq<Event>)
    ensures Consistent(Run(events))
  {
    hide Recounted;
    if events == [] {
      InitialIsRecounted();
    } else {
      CountsAgreeAfterAnyEvents(events[..|events| - 1]);
      EventKeepsCounts(Run(events[..|events| - 1]), events[|events| - 1]);
    }
  }

  ghost predicate ShownIn(branches: map<BranchKey, Branch>, id: Identity) {
    exists key, i, node :: At(branches, key, i, node) && node.identity == id
  }

  /** The identity is shown, and not only in the nodes the page replaces. */
  ghost predicate ShownElsewhere(v: ExplorerView, page: Page, id: Identity)
    requires KeyFor(page).Some?
  {
    exists key, i, node ::
      At(v.branches, key, i, node) && node.identity == id && (key != KeyFor(page).value || Appends(v, page))
  }

  lemma AtIsShown(branches: map<BranchKey, Branch>, key: BranchKey, i: int, node: Node)
    requires At(branches, key, i, node)
    ensures node.identity in IdentitiesOf(BranchAt(branches, key).nodes)
  {
  }

  /** The retention a page meets holds exactly what is shown elsewhere. */
  lemma BaseMeaning(v: ExplorerView, page: Page, id: Identity)
    requires Consistent(v) && !Ignored(v, page)
    ensures id in Base(v, page).identities <==> ShownElsewhere(v, page, id)
  {
    hide DroppedAll, At, BranchAt;
    var held :| Recounted(v, held);
    var key := KeyFor(page).value;
    var shown := BranchAt(v.branches, key).nodes;
    ShownNodes(v.branches, held, key);
    DroppedAllIsDescribed(v.retained, held, shown);
    if id in held {
      var other, i :| At(v.branches, other, i, held[id]);
      if id in IdentitiesOf(shown) {
        var j :| 0 <= j < |shown| && shown[j].identity == id;
        AtPosition(v.branches, key, j);
      } else {
        AtIsShown(v.branches, other, i, held[id]);
      }
    }
  }

  lemma AtPosition(branches: map<BranchKey, Branch>, key: BranchKey, j: nat)
    requires j < |BranchAt(branches, key).nodes|
    ensures At(branches, key, j, BranchAt(branches, key).nodes[j])
  {
  }

  /** The node at `k` of a page is taken already or does not exceed a cap where it stands. */
  ghost predicate HasRoom(v: ExplorerView, page: Page, k: nat)
    requires KeyFor(page).Some? && k < |page.nodes|
  {
    Fits(Base(v, page), page.nodes, k)
  }

  /** The node at `k` is new where it stands, and has room. */
  ghost predicate IsShown(v: ExplorerView, page: Page, positions: seq<nat>, k: nat)
    requires KeyFor(page).Some? && k < |page.nodes|
  {
    && !ShownElsewhere(v, page, page.nodes[k].identity)
    && !TakenBefore(page.nodes, positions, k, page.nodes[k].identity)
    && HasRoom(v, page, k)
  }

  /** The node at `k` is the first of the page with its identity, which is not shown elsewhere. */
  ghost predicate IsFirst(v: ExplorerView, page: Page, k: nat)
    requires KeyFor(page).Some? && k < |page.nodes|
  {
    && !ShownElsewhere(v, page, page.nodes[k].identity)
    && forall j | 0 <= j < k :: page.nodes[j].identity != page.nodes[k].identity
  }

  /** Every node of the page has room. */
  ghost predicate AllHaveRoom(v: ExplorerView, page: Page)
    requires KeyFor(page).Some?
  {
    forall k: nat | k < |page.nodes| :: HasRoom(v, page, k)
  }

  lemma PositionMeaning(v: ExplorerView, page: Page, k: nat)
    requires Consistent(v) && !Ignored(v, page) && k < |page.nodes|
    ensures var positions := Positions(Base(v, page), page.nodes);
            && (k in positions <==> IsShown(v, page, positions, k))
            && (AllHaveRoom(v, page) ==> (k in positions <==> IsFirst(v, page, k)))
  {
    var base, nodes := Base(v, page), page.nodes;
    hide Positions, Base, Consistent, ShownElsewhere, Fits, TakenBefore, Ignored;
    BaseMeaning(v, page, nodes[k].identity);
    SelectedMeaning(base, nodes, k);
    if AllHaveRoom(v, page) {
      forall j | 0 <= j <= k
        ensures Fits(base, nodes, j)
      {
        assert HasRoom(v, page, j);
      }
      FirstIsSelected(base, nodes, k);
    }
  }

  lemma RoomMeaning(v: ExplorerView, page: Page)
    requires KeyFor(page).Some?
    ensures Refuses(Base(v, page), page.nodes) <==> !AllHaveRoom(v, page)
  {
    var base, nodes := Base(v, page), page.nodes;
    hide Refuses, Base, Fits;
    RefusesMeaning(base, nodes);
    if k: nat :| k < |nodes| && !HasRoom(v, page, k) {
      assert !Fits(base, nodes, k);
    } else {
      forall k | 0 <= k < |nodes|
        ensures Fits(base, nodes, k)
      {
        assert HasRoom(v, page, k);
      }
    }
  }

  lemma LoadedBranch(v: ExplorerView, page: Page)
    requires !Ignored(v, page)
    ensures var key, after, base := KeyFor(page).value, Loaded(v, page).branches, Base(v, page);
            && key in after && !after[key].stale
            && after[key].nodes == NodesBefore(v, page) + Accepted(base, page.nodes)
            && (after[key].truncated <==> page.truncated || Refuses(base, page.nodes))
            && after[key].continuation
               == (if !after[key].truncated && page.nextToken.Some? && page.operationId in v.pending
                   then Some(v.pending[page.operationId].request.(pageToken := page.nextToken)) else None)
            && forall other | other != key :: BranchAt(after, other) == BranchAt(v.branches, other)
  {
    hide Accepted, KeptAll, Refuses, Base;
  }

  /**
   What is shown of any page: alone in its branch after a refresh, behind the nodes before it when appended, the
   nodes at `positions`, in order. These are exactly the ones that are not shown elsewhere, are not shown from
   earlier in the page, and have room; where all have room, the first of each identity not shown elsewhere. The
   branch is truncated exactly where the page was or a node has no room; no other branch changes; and more can be
   asked for exactly where the branch is not truncated and the page answers a request and has a token.
   */
  lemma LoadShowsThePage(v: ExplorerView, page: Page) returns (positions: seq<nat>)
    requires Consistent(v) && !Ignored(v, page)
    ensures var key, after, before := KeyFor(page).value, Loaded(v, page).branches, NodesBefore(v, page);
            && key in after && !after[key].stale
            && before <= after[key].nodes && Selects(page.nodes, positions, after[key].nodes[|before|..])
            && (after[key].truncated <==> page.truncated || !AllHaveRoom(v, page))
            && after[key].continuation
               == (if !after[key].truncated && page.nextToken.Some? && page.operationId in v.pending
                   then Some(v.pending[page.operationId].request.(pageToken := page.nextToken)) else None)
            && forall other | other != key :: BranchAt(after, other) == BranchAt(v.branches, other)
    ensures forall k: nat | k < |page.nodes| :: k in positions <==> IsShown(v, page, positions, k)
    ensures AllHaveRoom(v, page) ==> forall k: nat | k < |page.nodes| :: k in positions <==> IsFirst(v, page, k)
  {
    hide *;
    KeyForPage(v, page);
    var base := Base(v, page);
    positions := Positions(base, page.nodes);
    AcceptedAtPositions(base, page.nodes);
    RoomMeaning(v, page);
    LoadedBranch(v, page);
    forall k: nat | k < |page.nodes|
      ensures k in positions <==> IsShown(v, page, positions, k)
      ensures AllHaveRoom(v, page) ==> (k in positions <==> IsFirst(v, page, k))
    {
      PositionMeaning(v, page, k);
    }
  }

  lemma KeyForPage(v: ExplorerView, page: Page)
    requires !Ignored(v, page)
    ensures KeyFor(page).Some?
  {
  }

  /** After an untruncated load every identity of the page is shown, wherever it was before. */
  lemma LoadMissesNothing(v: ExplorerView, page: Page, k: nat)
    requires Consistent(v) && !Ignored(v, page) && k < |page.nodes|
    requires !Loaded(v, page).branches[KeyFor(page).value].truncated
    ensures ShownIn(Loaded(v, page).branches, page.nodes[k].identity)
  {
    var nodes, key, after, base := page.nodes, KeyFor(page).value, Loaded(v, page).branches, Base(v, page);
    var id, positions := nodes[k].identity, Positions(base, nodes);
    PositionMeaning(v, page, k);
    RoomMeaning(v, page);
    LoadedBranch(v, page);
    hide Loaded, Base, Consistent, HasRoom, Positions, Accepted, NodesBefore, Refuses, At, IsFirst, KeyFor, Ignored,
         BranchAt;
    assert HasRoom(v, page, k);
    if ShownElsewhere(v, page, id) {
      var other, i, node :|
        At(v.branches, other, i, node) && node.identity == id && (other != key || Appends(v, page));
      StaysShown(v, page, other, i, node);
    } else {
      var j :| j in positions && j < |nodes| && nodes[j].identity == id;
      AcceptedAtPositions(base, nodes);
      var i :| 0 <= i < |positions| && positions[i] == j;
      AtBehind(after, key, NodesBefore(v, page), Accepted(base, nodes), i);
    }
  }

  lemma StaysShown(v: ExplorerView, page: Page, other: BranchKey, i: int, node: Node)
    requires !Ignored(v, page) && At(v.branches, other, i, node)
    requires other != KeyFor(page).value || Appends(v, page)
    ensures At(Loaded(v, page).branches, other, i, node)
  {
    LoadedBranch(v, page);
    hide Loaded, Base, Accepted, Refuses;
  }

  lemma AtBehind(branches: map<BranchKey, Branch>, key: BranchKey, before: seq<Node>, more: seq<Node>, i: nat)
    requires key in branches && branches[key].nodes == before + more && i < |more|
    ensures At(branches, key, |before| + i, more[i])
  {
  }

  /** A refresh never clamps: each node it removes was counted, whatever was loaded before. */
  lemma RefreshNeverClamps(v: ExplorerView, page: Page, k: nat)
    requires Consistent(v) && !Ignored(v, page) && !Appends(v, page)
    requires k < |BranchAt(v.branches, KeyFor(page).value).nodes|
    ensures var nodes := BranchAt(v.branches, KeyFor(page).value).nodes;
            var r, node := DroppedAll(v.retained, nodes[..k]), nodes[k];
            && r.bytes >= NodeBytes(node)
            && match node.identity
               case SchemaId(_) => r.schemas >= 1
               case RelationId(_) => r.relations >= 1
               case ColumnId(key, _) => r.columns >= 1 && key in r.columnsByRelation && r.columnsByRelation[key] >= 1
  {
    hide Describes, DroppedAll, Shows, ShownOnce, NodeBytes, BranchAt, KeyFor, Appends;
    var held :| Recounted(v, held);
    var key := KeyFor(page).value;
    ShownNodes(v.branches, held, key);
    RemovedWasCounted(v.retained, held, BranchAt(v.branches, key).nodes, k);
  }

  lemma RemovedWasCounted(start: Retained, held: map<Identity, Node>, nodes: seq<Node>, k: nat)
    requires Describes(start, held) && DistinctNodes(nodes) && k < |nodes|
    requires forall i | 0 <= i < |nodes| :: nodes[i].identity in held && held[nodes[i].identity] == nodes[i]
    ensures var r, node := DroppedAll(start, nodes[..k]), nodes[k];
            && r.bytes >= NodeBytes(node)
            && match node.identity
               case SchemaId(_) => r.schemas >= 1
               case RelationId(_) => r.relations >= 1
               case ColumnId(key, _) => r.columns >= 1 && key in r.columnsByRelation && r.columnsByRelation[key] >= 1
  {
    hide Describes, DroppedAll, NodeBytes;
    DroppedAllIsDescribed(start, held, nodes[..k]);
    assert nodes[k].identity !in IdentitiesOf(nodes[..k]);
    DroppedIsDescribed(DroppedAll(start, nodes[..k]), held - IdentitiesOf(nodes[..k]), nodes[k]);
  }

  // ---- the object ----

  class MySqlExplorerState {
    var branches: map<BranchKey, Branch>
    var pending: map<nat, Pending>
    var retry: Option<Request>
    var lastError: Option<string>
    const retention: CatalogRetention

    function State(): ExplorerView
      reads this, retention
    {
      ExplorerView(branches, pending, retry, lastError, retention.State())
    }

    ghost predicate Valid()
      reads this, retention
    {
      Consistent(State())
    }

    constructor ()
      ensures fresh(retention) && State() == INITIAL && Valid()
    {
      branches, pending, retry, lastError := map[], map[], None, None;
      retention := new CatalogRetention();
      new;
      InitialIsRecounted();
    }

    /** `mark_submitted`. */
    method MarkSubmitted(request: Request)
      requires Valid()
      modifies this
      ensures State() == Submitted(old(State()), request) && Valid()
    {
      EventKeepsCounts(State(), Submit(request));
      pending := pending[request.operationId := Pending(request, request.pageToken.Some?)];
      lastError := None;
    }

    /** `handle_loaded`. */
    method HandleLoaded(page: Page)
      requires Valid()
      modifies this, retention
      ensures State() == Loaded(old(State()), page) && Valid()
    {
      hide Consistent, Accepted, KeptAll, DroppedAll, Refuses;
      EventKeepsCounts(State(), Load(page));
      var answered := if page.operationId in pending then Some(pending[page.operationId]) else None;
      pending := pending - {page.operationId};
      if answered.Some? && LevelOf(answered.value.request.branch) != page.level {
        return;
      }
      var key := KeyFor(page);
      if key.None? {
        return;
      }
      var append := answered.Some? && answered.value.append;
      var continuation :=
        if answered.Some? && page.nextToken.Some? then Some(answered.value.request.(pageToken := page.nextToken))
        else None;
      if !append {
        if key.value in branches {
          retention.Remove(branches[key.value].nodes);
        } else {
          NothingDropped(retention.State());
        }
      }
      var outcome := retention.Retain(page.nodes);
      var branch := if key.value in branches then branches[key.value] else EMPTY_BRANCH;
      if !append {
        branch := branch.(nodes := []);
      }
      branch := branch.(nodes := branch.nodes + outcome.nodes, truncated := page.truncated || outcome.truncated);
      branch := branch.(continuation := if branch.truncated then None else continuation, stale := false);
      branches := branches[key.value := branch];
      retry := None;
      lastError := None;
    }

    /** `handle_failed`. */
    method HandleFailed(request: Request, summary: string)
      requires Valid()
      modifies this
      ensures State() == Failed(old(State()), request, summary) && Valid()
    {
      EventKeepsCounts(State(), Fail(request, summary));
      pending := pending - {request.operationId};
      var key := request.branch;
      if key in branches {
        branches := branches[key := branches[key].(stale := true)];
      }
      retry := Some(request);
      lastError := Some(summary);
    }

    /** `clear`. */
    method ClearAll()
      modifies this, retention
      ensures State() == INITIAL && Valid()
    {
      branches, pending, retry, lastError := map[], map[], None, None;
      retention.Clear();
      InitialIsRecounted();
    }

    /** `dismiss_error`. */
    method DismissError()
      requires Valid()
      modifies this
      ensures State() == old(State()).(lastError := None) && Valid()
    {
      EventKeepsCounts(State(), Dismiss);
      lastError := None;
    }
  }

  lemma NothingDropped(r: Retained)
    ensures DroppedAll(r, []) == r
  {
  }
}
