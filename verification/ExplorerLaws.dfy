/** What the explorer shows after submits and loads, for single events, for any events, and for a whole chain of pages. */
module ExplorerLaws {
  import opened Wrappers
  import opened Catalog
  import opened CatalogRecount
  import opened CatalogRequests
  import opened CatalogSelection
  import opened CatalogTokens
  import opened CatalogPages
  import opened CatalogChains
  import opened Numbers
  import opened MysqlExplorer

  // ---- one event ----

  /** A page belongs to the branch whose nodes it lists. */
  lemma BranchOfPage(page: Page)
    ensures KeyFor(page) == Some(Schemas) <==> page.level == SchemaLevel && page.parent == None
    ensures forall schema :: KeyFor(page) == Some(Relations(schema)) <==>
              page.level == RelationLevel && page.parent == Some(SchemaId(schema))
    ensures forall key :: KeyFor(page) == Some(Columns(key)) <==>
              page.level == ColumnLevel && page.parent == Some(RelationId(key))
  {
  }

  /** A submit waits for its answer, forgets the error, and changes nothing that is shown. */
  lemma SubmitMeaning(v: ExplorerView, request: Request)
    ensures var w, id := Apply(v, Submit(request)), request.operationId;
            && id in w.pending && w.pending[id].request == request
            && w.pending - {id} == v.pending - {id}
            && w.branches == v.branches && w.retained == v.retained && w.retry == v.retry && w.lastError == None
  {
  }

  /** After a failure the branch is shown as it was and marked stale, and its request can be tried again. */
  lemma FailMeaning(v: ExplorerView, request: Request, summary: string)
    ensures var w, key := Apply(v, Fail(request, summary)), request.branch;
            && w.branches.Keys == v.branches.Keys && w.retained == v.retained
            && w.pending == v.pending - {request.operationId} && w.retry == Some(request) && w.lastError == Some(summary)
            && (key in v.branches ==>
                  w.branches[key].stale && w.branches[key].(stale := v.branches[key].stale) == v.branches[key])
            && (forall other | other in v.branches && other != key :: w.branches[other] == v.branches[other])
  {
  }

  /** A page that lists another level than was asked for, or no branch there is, changes nothing but what is awaited. */
  lemma StrayPage(v: ExplorerView, page: Page)
    requires || KeyFor(page).None?
             || (&& page.operationId in v.pending
                 && LevelOf(v.pending[page.operationId].request.branch) != page.level)
    ensures Apply(v, Load(page)) == v.(pending := v.pending - {page.operationId})
  {
  }

  /** A page that is taken settles what was pending, to be tried again, or wrong. */
  lemma TakenPage(v: ExplorerView, page: Page)
    requires KeyFor(page).Some?
    requires page.operationId in v.pending ==> LevelOf(v.pending[page.operationId].request.branch) == page.level
    ensures var w := Apply(v, Load(page));
            && w.pending == v.pending - {page.operationId} && w.retry == None && w.lastError == None
            && w.branches.Keys == v.branches.Keys + {KeyFor(page).value}
  {
    hide Accepted, KeptAll, Refuses, DroppedAll, NodesBefore, Continuation, Base;
  }

  /** Dismissing the error changes nothing else; clearing leaves nothing shown, held, pending, wrong or to be tried. */
  lemma ForgetMeaning(v: ExplorerView)
    ensures Apply(v, Dismiss).lastError == None && Apply(v, Dismiss).(lastError := v.lastError) == v
    ensures Apply(v, Clear)
         == ExplorerView(map[], map[], None, None, Retained({}, 0, 0, 0, 0, map[]))
  {
  }

  // ---- any events ----

  /** The event submits, answers or forgets the request with this operation id. */
  predicate Concerns(event: Event, operationId: nat) {
    match event
    case Submit(request) => request.operationId == operationId
    case Load(page) => page.operationId == operationId
    case Fail(request, _) => request.operationId == operationId
    case Dismiss => false
    case Clear => true
  }

  /** The last event of these that concerned the operation is its submit. */
  ghost predicate Awaits(events: seq<Event>, i: nat, request: Request) {
    && i < |events| && events[i] == Submit(request)
    && forall j | i < j < |events| :: !Concerns(events[j], request.operationId)
  }

  lemma PendingStays(v: ExplorerView, event: Event, operationId: nat)
    requires operationId in v.pending && !Concerns(event, operationId)
    ensures operationId in Apply(v, event).pending && Apply(v, event).pending[operationId] == v.pending[operationId]
  {
    hide Accepted, KeptAll, Refuses, DroppedAll;
  }

  lemma {:induction false} AwaitedIsPending(events: seq<Event>, i: nat, request: Request)
    requires Awaits(events, i, request)
    ensures var v := Run(events);
            && request.operationId in v.pending && v.pending[request.operationId].request == request
            && (v.pending[request.operationId].append <==> request.pageToken.Some?)
  {
    hide Apply;
    var n := |events| - 1;
    if i == n {
      SubmitAppends(Run(events[..n]), request);
    } else {
      var before := events[..n];
      assert forall j | i < j < n :: before[j] == events[j];
      AwaitedIsPending(before, i, request);
      PendingStays(Run(before), events[n], request.operationId);
    }
  }

  lemma SubmitAppends(v: ExplorerView, request: Request)
    ensures var w := Apply(v, Submit(request));
            && request.operationId in w.pending && w.pending[request.operationId].request == request
            && (w.pending[request.operationId].append <==> request.pageToken.Some?)
  {
  }

  /** The page answers the request: it has its operation id and lists its branch. */
  predicate Answers(page: Page, request: Request) {
    && page.operationId == request.operationId
    && page.level == LevelOf(request.branch) && page.parent == ParentOf(request.branch)
  }

  lemma AnswerIsTaken(v: ExplorerView, request: Request, page: Page)
    requires Answers(page, request) && request.operationId in v.pending
    requires v.pending[request.operationId].request == request
    ensures page.operationId == request.operationId && KeyFor(page) == Some(request.branch) && !Ignored(v, page)
  {
  }

  /**
   After any events, when a request is answered that was submitted with a page token, its branch begins with all it
   showed before, and the nodes of the page come behind; one submitted without shows nothing but nodes of the page.
   More can then be asked for exactly where the branch is not truncated and the page has a token, with that token.
   */
  lemma AnswerIsShown(events: seq<Event>, i: nat, request: Request, page: Page) returns (positions: seq<nat>)
    requires Awaits(events, i, request) && Answers(page, request)
    ensures var before, after := Run(events).branches, Apply(Run(events), Load(page)).branches;
            var shown := if request.pageToken.Some? then BranchAt(before, request.branch).nodes else [];
            && request.branch in after && shown <= after[request.branch].nodes
            && Selects(page.nodes, positions, after[request.branch].nodes[|shown|..])
            && !after[request.branch].stale
            && after[request.branch].continuation
               == (if !after[request.branch].truncated && page.nextToken.Some?
                   then Some(request.(pageToken := page.nextToken)) else None)
            && forall other | other != request.branch :: BranchAt(after, other) == BranchAt(before, other)
  {
    var v := Run(events);
    AwaitedIsPending(events, i, request);
    AnswerIsTaken(v, request, page);
    CountsAgreeAfterAnyEvents(events);
    hide Run, Consistent, Loaded, Selects, IsShown, IsFirst, AllHaveRoom;
    positions := LoadShowsThePage(v, page);
  }

  // ---- a whole chain ----

  /** Each request submitted, and its page loaded before the next is. */
  function Playing(requests: seq<Request>, pages: seq<Page>): seq<Event>
    requires |requests| == |pages|
  {
    if requests == [] then []
    else
      var n := |requests| - 1;
      Playing(requests[..n], pages[..n]) + [Submit(requests[n]), Load(pages[n])]
  }

  lemma PlayedOne(requests: seq<Request>, pages: seq<Page>)
    requires |requests| == |pages| > 0
    ensures var n := |requests| - 1;
            Run(Playing(requests, pages))
            == Apply(Apply(Run(Playing(requests[..n], pages[..n])), Submit(requests[n])), Load(pages[n]))
  {
    hide Apply, Run;
    var n := |requests| - 1;
    RunTwo(Playing(requests[..n], pages[..n]), Submit(requests[n]), Load(pages[n]));
  }

  lemma RunTwo(events: seq<Event>, first: Event, second: Event)
    ensures Run(events + [first, second]) == Apply(Apply(Run(events), first), second)
  {
    hide Apply;
    var all := events + [first, second];
    assert all[..|all| - 1] == events + [first];
    assert (events + [first])[..|events|] == events;
  }

  lemma ChainBegins(codec: Codec, first: Request, requests: seq<Request>, list: seq<Node>, pages: seq<Page>)
    requires ListingChain(codec, first, requests, list, pages) && |pages| > 1
    ensures var n := |pages| - 1; ListingChain(codec, first, requests[..n], list, pages[..n])
  {
    hide Answer, Listing, Sound;
    var n := |pages| - 1;
    forall i: nat | i < n
      ensures Linked(codec, requests[..n], list, pages[..n], i)
    {
      assert Linked(codec, requests, list, pages, i);
      assert requests[..n][i] == requests[i] && pages[..n][i] == pages[i];
      assert i > 0 ==> pages[..n][i - 1] == pages[i - 1];
    }
  }

  lemma AnswerOf(codec: Codec, request: Request, list: seq<Node>)
    requires Answer(codec, request, list).Some?
    ensures Answers(Answer(codec, request, list).value, request)
  {
    hide Fetch, Position, FromCheckpoint, KeptAll, Accepted, Refuses, CanRetain, NextToken, CountsOf;
  }

  /** What the explorer has after the first pages of a listing: their nodes, and what one retention of them has. */
  ghost predicate HasShown(v: ExplorerView, branch: BranchKey, list: seq<Node>, k: nat)
    requires k <= |list|
  {
    && BranchAt(v.branches, branch).nodes == list[..k] && v.retained == Through(list, k)
  }

  /** One page more: the explorer accepts every node of a page that is not truncated. */
  lemma PageIsShown(codec: Codec, first: Request, request: Request, list: seq<Node>, k: nat, page: Page, v: ExplorerView)
    requires Listing(first.branch, list) && Alike(first, request) && Answers(page, request)
    requires PageIs(codec, first, list, k, page) && !page.truncated
    requires HasShown(v, first.branch, list, k) && (request.pageToken.None? ==> k == 0)
    ensures var m := Lesser(|list|, k + first.pageSize);
            var w := Apply(Apply(v, Submit(request)), Load(page));
            HasShown(w, first.branch, list, m) && m >= k
    ensures var w := Apply(Apply(v, Submit(request)), Load(page));
            forall other | other != first.branch :: BranchAt(w.branches, other) == BranchAt(v.branches, other)
  {
    hide *;
    var u := Apply(v, Submit(request));
    var m := Lesser(|list|, k + first.pageSize);
    PageWithin(codec, first, list, k, page);
    ShownMeaning(v, first.branch, list, k);
    assert list[..0] == [];
    SubmitAppends(v, request);
    SubmitMeaning(v, request);
    SameListing(first, request);
    AnswerIsTaken(u, request, page);
    WholePage(codec, first, list, k, page);
    RestInOrder(first.branch, list, k, m);
    AppendsMeaning(u, page);
    NothingToDrop(u, page, first.branch);
    LoadedBranch(u, page);
    LoadedRetention(u, page);
    assert list[..k] + list[k..m] == list[..m];
    ShownIs(Apply(u, Load(page)), first.branch, list, m);
  }

  lemma WholePage(codec: Codec, first: Request, list: seq<Node>, k: nat, page: Page)
    requires PageIs(codec, first, list, k, page) && !page.truncated
    ensures var m := Lesser(|list|, k + first.pageSize);
            k <= m <= |list| && page.nodes == list[k..m] && Accepted(Through(list, k), page.nodes) == page.nodes
  {
    hide Accepted, Refuses, Through, CountsOf;
  }

  lemma AppendsMeaning(v: ExplorerView, page: Page)
    requires page.operationId in v.pending
    ensures Appends(v, page) <==> v.pending[page.operationId].append
  {
  }

  lemma LoadedRetention(v: ExplorerView, page: Page)
    requires !Ignored(v, page)
    ensures KeyFor(page).Some? && Apply(v, Load(page)) == Loaded(v, page)
    ensures Loaded(v, page).retained == KeptAll(Base(v, page), page.nodes)
    ensures KeyFor(page).value in Loaded(v, page).branches
            && BranchAt(Loaded(v, page).branches, KeyFor(page).value) == Loaded(v, page).branches[KeyFor(page).value]
  {
    hide Accepted, KeptAll, Refuses, Base;
  }

  lemma ShownMeaning(v: ExplorerView, branch: BranchKey, list: seq<Node>, k: nat)
    requires k <= |list| && HasShown(v, branch, list, k)
    ensures BranchAt(v.branches, branch).nodes == list[..k] && v.retained == Through(list, k)
  {
  }

  lemma ShownIs(v: ExplorerView, branch: BranchKey, list: seq<Node>, k: nat)
    requires k <= |list| && BranchAt(v.branches, branch).nodes == list[..k] && v.retained == Through(list, k)
    ensures HasShown(v, branch, list, k)
  {
  }

  lemma NothingToDrop(v: ExplorerView, page: Page, branch: BranchKey)
    requires KeyFor(page) == Some(branch) && (Appends(v, page) || BranchAt(v.branches, branch).nodes == [])
    ensures Base(v, page) == v.retained && NodesBefore(v, page) == BranchAt(v.branches, branch).nodes
  {
    NothingDropped(v.retained);
  }

  /**
   From an empty explorer: after any number of pages of a chain, none of them truncated, the branch shows exactly the
   nodes of these pages, which are the listing from its start, and no other branch shows anything.
   */
  lemma {:induction false} ChainIsShown(codec: Codec, first: Request, requests: seq<Request>, list: seq<Node>,
                                        pages: seq<Page>)
    requires ListingChain(codec, first, requests, list, pages)
    requires forall i | 0 <= i < |pages| :: !pages[i].truncated
    ensures |requests| == |pages| > 0
    ensures var n := |pages| - 1;
            var v := Run(Playing(requests, pages));
            && Behind(n, first.pageSize) <= |list|
            && HasShown(v, first.branch, list, Lesser(|list|, Behind(n, first.pageSize) + first.pageSize))
            && forall other | other != first.branch :: BranchAt(v.branches, other) == EMPTY_BRANCH
    decreases |pages|
  {
    hide *;
    ChainLists(codec, first, requests, list, pages);
    ChainCounts(codec, first, requests, list, pages);
    var n := |pages| - 1;
    PlayedOne(requests, pages);
    PageInChain(codec, first, requests, list, pages, n);
    LinkOf(codec, first, requests, list, pages, n);
    var k := Behind(n, first.pageSize);
    PageWithin(codec, first, list, k, pages[n]);
    var v := Run(Playing(requests[..n], pages[..n]));
    if n == 0 {
      NothingShown(first.branch, list);
      assert requests[..0] == [] && pages[..0] == [];
      BehindNext(n, first.pageSize);
    } else {
      ChainBegins(codec, first, requests, list, pages);
      assert forall i | 0 <= i < n :: pages[..n][i] == pages[i];
      ChainIsShown(codec, first, requests[..n], list, pages[..n]);
      BehindNext(n, first.pageSize);
      LesserIs(|list|, k);
    }
    PageIsShown(codec, first, requests[n], list, k, pages[n], v);
  }

  lemma BehindNext(n: nat, size: nat)
    ensures Behind(n, size) == if n == 0 then 0 else Behind(n - 1, size) + size
  {
  }

  lemma LesserIs(a: nat, b: nat)
    ensures b <= a ==> Lesser(a, b) == b
  {
  }

  lemma PageWithin(codec: Codec, first: Request, list: seq<Node>, k: nat, page: Page)
    requires PageIs(codec, first, list, k, page)
    ensures k <= |list|
  {
    hide Accepted, Refuses, Through, CountsOf;
  }

  lemma NothingShown(branch: BranchKey, list: seq<Node>)
    ensures Run(Playing([], [])) == INITIAL && HasShown(INITIAL, branch, list, 0)
    ensures forall other :: BranchAt(INITIAL.branches, other) == EMPTY_BRANCH
  {
    assert list[..0] == [];
  }

  lemma ChainCounts(codec: Codec, first: Request, requests: seq<Request>, list: seq<Node>, pages: seq<Page>)
    requires ListingChain(codec, first, requests, list, pages)
    ensures |requests| == |pages| > 0
  {
    hide Linked, Listing, Sound;
  }

  lemma LinkOf(codec: Codec, first: Request, requests: seq<Request>, list: seq<Node>, pages: seq<Page>, i: nat)
    requires ListingChain(codec, first, requests, list, pages) && i < |requests| == |pages|
    ensures Answers(pages[i], requests[i]) && (requests[i].pageToken.None? <==> i == 0)
  {
    assert Linked(codec, requests, list, pages, i);
    AnswerOf(codec, requests[i], list);
    hide Listing, Sound, Answer;
  }
}
