/** Following continuation tokens over a listing gives what one uninterrupted retention of it gives. */
module CatalogChains {
  import opened Wrappers
  import opened Catalog
  import opened CatalogRecount
  import opened CatalogRequests
  import opened CatalogTokens
  import opened CatalogPages
  import opened Numbers

  // ---- lists kept in two parts ----

  lemma {:induction false} KeptInTwo(r: Retained, a: seq<Node>, b: seq<Node>)
    ensures KeptAll(r, a + b) == KeptAll(KeptAll(r, a), b)
    ensures Accepted(r, a + b) == Accepted(r, a) + Accepted(KeptAll(r, a), b)
    ensures Refuses(r, a + b) <==> Refuses(r, a) || Refuses(KeptAll(r, a), b)
  {
    hide Kept, Accepts, CanRetain;
    if b == [] {
      assert a + b == a;
    } else {
      var most, last := b[..|b| - 1], b[|b| - 1];
      assert (a + b)[..|a + b| - 1] == a + most && (a + b)[|a + b| - 1] == last;
      KeptInTwo(r, a, most);
    }
  }

  // ---- a retention restored from a checkpoint ----

  /** The same but for the identities it has forgotten. */
  ghost predicate Restores(b: Retained, u: Retained) {
    b.(identities := u.identities) == u && b.identities <= u.identities
  }

  lemma KeptAlike(b: Retained, u: Retained, node: Node)
    requires Restores(b, u) && node.identity !in u.identities
    ensures Restores(Kept(b, node), Kept(u, node))
    ensures CanRetain(b, node) <==> CanRetain(u, node)
    ensures Accepts(b, node) <==> Accepts(u, node)
  {
    hide NodeBytes;
  }

  lemma {:induction false} KeptAllAlike(b: Retained, u: Retained, nodes: seq<Node>)
    requires Restores(b, u) && DistinctNodes(nodes)
    requires forall i | 0 <= i < |nodes| :: nodes[i].identity !in u.identities
    ensures Restores(KeptAll(b, nodes), KeptAll(u, nodes))
    ensures Accepted(b, nodes) == Accepted(u, nodes)
    ensures Refuses(b, nodes) <==> Refuses(u, nodes)
  {
    hide Kept, Accepts, CanRetain;
    if nodes != [] {
      var before, last := nodes[..|nodes| - 1], nodes[|nodes| - 1];
      KeptAllAlike(b, u, before);
      NotRefusedIsAccepted(u, before);
      assert last.identity !in IdentitiesOf(before);
      KeptAlike(KeptAll(b, before), KeptAll(u, before), last);
    }
  }

  /** Only the relation that is listed has columns. */
  ghost predicate OneRelation(branch: BranchKey, columns: map<RelationKey, nat>) {
    forall key | key in columns :: branch == Columns(key) && columns[key] > 0
  }

  lemma {:induction false} KeptOneRelation(branch: BranchKey, r: Retained, nodes: seq<Node>)
    requires OneRelation(branch, r.columnsByRelation)
    requires forall i | 0 <= i < |nodes| :: Belongs(branch, nodes[i])
    ensures OneRelation(branch, KeptAll(r, nodes).columnsByRelation)
  {
    hide NodeBytes;
    if nodes != [] {
      KeptOneRelation(branch, r, nodes[..|nodes| - 1]);
    }
  }

  lemma LargestOfOne(branch: BranchKey, columns: map<RelationKey, nat>)
    requires OneRelation(branch, columns)
    ensures Largest(columns) > 0 ==> branch.Columns? && columns == map[branch.key := Largest(columns)]
    ensures Largest(columns) == 0 ==> columns == map[]
  {
    var largest := Largest(columns);
    if columns != map[] {
      var key :| key in columns && columns[key] == largest;
      assert forall other | other in columns :: other == key;
    }
  }

  /** The retention of the first `k` nodes of a listing, in one go. */
  ghost function Through(list: seq<Node>, k: nat): Retained
    requires k <= |list|
  {
    KeptAll(NOTHING, list[..k])
  }

  lemma ThroughIsWithinCaps(branch: BranchKey, list: seq<Node>, k: nat)
    requires Listing(branch, list) && k <= |list|
    ensures WithinCaps(Through(list, k)) && OneRelation(branch, Through(list, k).columnsByRelation)
  {
    NothingDescribed();
    KeptIsDescribed(NOTHING, map[], list[..k]);
    KeptOneRelation(branch, NOTHING, list[..k]);
    hide KeptAll, Accepted;
  }

  /** A checkpoint restores what was kept. */
  lemma CheckpointRestores(request: Request, list: seq<Node>, k: nat)
    requires Listing(request.branch, list) && k <= |list|
    ensures var u := Through(list, k);
            var base := FromCheckpoint(CountsOf(u), u.bytes, RelationOf(request));
            base.Some? && Restores(base.value, u)
  {
    ThroughIsWithinCaps(request.branch, list, k);
    hide Through, Listing;
    var u := Through(list, k);
    LargestOfOne(request.branch, u.columnsByRelation);
    if u.columnsByRelation != map[] {
      var key :| key in u.columnsByRelation && u.columnsByRelation[key] == Largest(u.columnsByRelation);
    }
  }

  // ---- one page of a chain ----

  /** A decoded token carries what one retention of the first `k` nodes would give. */
  ghost predicate Carries(request: Request, list: seq<Node>, k: nat, decoded: Decoded) {
    && ResumesAt(request, decoded, list, k)
    && decoded.counts == CountsOf(Through(list, k)) && decoded.bytes == Through(list, k).bytes
    && !Refuses(NOTHING, list[..k])
  }

  /** The page after the first `k` nodes, in terms of the listing alone. */
  ghost predicate PageIs(codec: Codec, request: Request, list: seq<Node>, k: nat, page: Page) {
    var m := Lesser(|list|, k + request.pageSize);
    && k <= |list|
    && page.nodes == Accepted(Through(list, k), list[k..m])
    && page.counts == CountsOf(Through(list, m)) && page.bytes == Through(list, m).bytes
    && (page.truncated <==> Refuses(NOTHING, list[..Lesser(|list|, k + request.pageSize + 1)]))
    && (!page.truncated ==> page.nodes == list[k..m])
    && (page.nextToken.Some? <==> !page.truncated && m < |list|)
    && (page.nextToken.Some? ==>
          m > 0 && page.nextToken.value == EncodeToken(codec, request, list[m - 1], page.counts, page.bytes))
  }

  lemma RestIsNew(branch: BranchKey, list: seq<Node>, k: nat, i: nat)
    requires Listing(branch, list) && k <= i < |list|
    ensures list[i].identity !in Through(list, k).identities
  {
    NotRefusedIsAccepted(NOTHING, list[..k]);
    hide KeptAll, Accepted, Refuses, Belongs, ComesAfter;
    assert list[i].identity !in IdentitiesOf(list[..k]);
  }

  lemma RestInOrder(branch: BranchKey, list: seq<Node>, k: nat, m: nat)
    requires Listing(branch, list) && k <= m <= |list|
    ensures DistinctNodes(list[k..m])
    ensures forall i | 0 <= i < m - k :: list[k..m][i].identity !in Through(list, k).identities
    ensures Through(list, m) == KeptAll(Through(list, k), list[k..m])
    ensures Refuses(NOTHING, list[..m]) <==> Refuses(NOTHING, list[..k]) || Refuses(Through(list, k), list[k..m])
  {
    hide KeptAll, Accepted, Refuses, Belongs, ComesAfter;
    assert list[..k] + list[k..m] == list[..m];
    KeptInTwo(NOTHING, list[..k], list[k..m]);
    forall i | 0 <= i < m - k
      ensures list[k..m][i].identity !in Through(list, k).identities
    {
      RestIsNew(branch, list, k, k + i);
    }
  }

  lemma PageOfChain(codec: Codec, request: Request, list: seq<Node>, k: nat, decoded: Decoded)
    requires Listing(request.branch, list) && request.pageSize >= 1 && Carries(request, list, k, decoded)
    ensures k <= |list|
    ensures var page := PageOf(codec, request, decoded, Fetch(request, decoded, list));
            page.Some? && PageIs(codec, request, list, k, page.value)
  {
    hide KeptAll, Accepted, Refuses, CanRetain, Fetch, EncodeToken, Listing, Through;
    FetchResumes(request, decoded, list, k);
    CheckpointRestores(request, list, k);
    var base := FromCheckpoint(decoded.counts, decoded.bytes, RelationOf(request)).value;
    PageFromRestored(codec, request, list, k, base, Fetch(request, decoded, list));
  }

  lemma PageFromRestored(codec: Codec, request: Request, list: seq<Node>, k: nat, base: Retained, fetched: seq<Node>)
    requires Listing(request.branch, list) && request.pageSize >= 1 && k <= |list|
    requires Restores(base, Through(list, k)) && !Refuses(NOTHING, list[..k])
    requires fetched == list[k..Lesser(|list|, k + request.pageSize + 1)]
    ensures PageIs(codec, request, list, k, PageFrom(codec, request, base, fetched))
  {
    hide KeptAll, Accepted, Refuses, CanRetain, EncodeToken, Listing, Through, DistinctNodes, CountsOf;
    var u, size := Through(list, k), request.pageSize;
    var m := Lesser(|list|, k + size);
    var nodes := list[k..m];
    assert fetched[..Lesser(size, |fetched|)] == nodes;
    RestInOrder(request.branch, list, k, m);
    KeptAllAlike(base, u, nodes);
    NotRefusedIsAccepted(u, nodes);
    var state, through := KeptAll(base, nodes), Through(list, m);
    RestoresCounts(state, through);
    if m < |list| {
      RestInOrder(request.branch, list, m, m + 1);
      RestIsNew(request.branch, list, m, m);
      KeptAlike(state, through, list[m]);
      OneRefused(through, list[m]);
      assert list[m..m + 1] == [list[m]];
      assert fetched[size] == list[m];
    }
  }

  lemma RestoresCounts(b: Retained, u: Retained)
    requires Restores(b, u)
    ensures CountsOf(b) == CountsOf(u) && b.bytes == u.bytes
  {
  }

  lemma OneRefused(r: Retained, node: Node)
    ensures Refuses(r, [node]) <==> !CanRetain(r, node)
  {
    hide CanRetain;
    assert [node][..0] == [];
  }

  // ---- chains ----

  /** Where a request resumes: at the start without a token. `None` is the error for an invalid request. */
  function Position(codec: Codec, request: Request): Option<Decoded> {
    if request.pageToken.None? then Some(START) else DecodeToken(codec, request, request.pageToken.value)
  }

  /** The page that answers a request. */
  ghost function Answer(codec: Codec, request: Request, list: seq<Node>): Option<Page> {
    var decoded := Position(codec, request);
    if decoded.None? then None else PageOf(codec, request, decoded.value, Fetch(request, decoded.value, list))
  }

  /** How many nodes of a listing lie before page `i`. */
  function Behind(i: nat, size: nat): nat {
    if i == 0 then 0 else Behind(i - 1, size) + size
  }

  /** Pages, each the answer to a request with the token of the one before. Nothing else is said of the requests. */
  ghost predicate Chain(codec: Codec, requests: seq<Request>, list: seq<Node>, pages: seq<Page>) {
    && pages != [] && |requests| == |pages|
    && forall i: nat | i < |pages| :: Linked(codec, requests, list, pages, i)
  }

  ghost predicate Linked(codec: Codec, requests: seq<Request>, list: seq<Node>, pages: seq<Page>, i: nat)
    requires |requests| == |pages| && i < |pages|
  {
    && Answer(codec, requests[i], list) == Some(pages[i])
    && if i == 0 then requests[0].pageToken.None? else Follows(pages[i - 1], requests[i])
  }

  predicate Follows(page: Page, request: Request) {
    page.nextToken.Some? && request.pageToken == page.nextToken
  }

  /** The chain of a listing that begins with a well formed request. */
  ghost predicate ListingChain(codec: Codec, first: Request, requests: seq<Request>, list: seq<Node>, pages: seq<Page>)
  {
    && Sound(codec) && Listing(first.branch, list) && first.pageSize >= 1
    && Chain(codec, requests, list, pages) && requests[0] == first
  }

  lemma StartCarries(request: Request, list: seq<Node>)
    ensures Carries(request, list, 0, START)
  {
    assert list[..0] == [];
    hide ComesAfter;
    OneLargest(map[], 0);
  }

  /** The token of a page carries the retention of everything up to it, and asks for what comes next. */
  lemma TokenCarries(codec: Codec, request: Request, list: seq<Node>, k: nat, page: Page)
    requires Sound(codec) && Listing(request.branch, list) && request.pageSize >= 1
    requires PageIs(codec, request, list, k, page) && page.nextToken.Some?
    ensures var decoded := DecodeToken(codec, request, page.nextToken.value);
            decoded.Some? && Carries(request, list, k + request.pageSize, decoded.value)
  {
    hide KeptAll, Accepted, Refuses, Through, CountsOf, EncodeToken, DecodeToken, ComesAfter, FromCheckpoint, Sound;
    var m := k + request.pageSize;
    CheckpointRestores(request, list, m);
    assert Belongs(request.branch, list[m - 1]);
    TokenRoundTrip(codec, request, list[m - 1], page.counts, page.bytes);
    NothingRefusedBefore(request.branch, list, m, m + 1);
  }

  lemma NothingRefusedBefore(branch: BranchKey, list: seq<Node>, k: nat, m: nat)
    requires Listing(branch, list) && k <= m <= |list| && !Refuses(NOTHING, list[..m])
    ensures !Refuses(NOTHING, list[..k])
  {
    hide Refuses, Listing, Through, KeptAll;
    RestInOrder(branch, list, k, m);
  }

  lemma AlikeCarries(one: Request, other: Request, list: seq<Node>, k: nat, decoded: Decoded)
    requires Alike(one, other) && Carries(one, list, k, decoded)
    ensures Carries(other, list, k, decoded)
  {
    hide Refuses, Through, CountsOf;
  }

  lemma AlikePageIs(codec: Codec, one: Request, other: Request, list: seq<Node>, k: nat, page: Page)
    requires Alike(one, other) && PageIs(codec, one, list, k, page)
    ensures PageIs(codec, other, list, k, page)
  {
    hide Accepted, Refuses, Through, CountsOf;
  }

  /**
   A request with the token of a page is answered exactly if it lists what the request for that page listed, and
   then with the page that follows.
   */
  lemma NextInChain(codec: Codec, first: Request, list: seq<Node>, k: nat, page: Page, request: Request)
    requires Sound(codec) && Listing(first.branch, list) && first.pageSize >= 1
    requires PageIs(codec, first, list, k, page) && Follows(page, request)
    ensures Answer(codec, request, list).Some? <==> Alike(first, request)
    ensures Alike(first, request) ==>
              PageIs(codec, first, list, k + first.pageSize, Answer(codec, request, list).value)
  {
    hide PageOf, Fetch, PageIs, DecodeToken, Listing, Carries, Sound, Alike;
    TokenCarries(codec, first, list, k, page);
    TokenNamesItsRequest(codec, first, request, page.nextToken.value);
    if Alike(first, request) {
      var decoded := DecodeToken(codec, first, page.nextToken.value).value;
      SameListing(first, request);
      AlikeCarries(first, request, list, k + first.pageSize, decoded);
      PageOfChain(codec, request, list, k + first.pageSize, decoded);
      AlikePageIs(codec, request, first, list, k + first.pageSize, Answer(codec, request, list).value);
    }
  }

  lemma SameListing(one: Request, other: Request)
    requires Alike(one, other)
    ensures Alike(other, one) && one.branch == other.branch && one.pageSize == other.pageSize
  {
  }

  /**
   Page `i` of a chain is the page after `i` full pages of the listing. The requests may differ, in their operation
   ids at least, but in nothing that says what is listed: the token of a page is refused for any other.
   */
  lemma {:induction false} PageInChain(codec: Codec, first: Request, requests: seq<Request>, list: seq<Node>,
                                       pages: seq<Page>, i: nat)
    requires ListingChain(codec, first, requests, list, pages) && i < |pages|
    ensures Alike(first, requests[i])
    ensures PageIs(codec, first, list, Behind(i, first.pageSize), pages[i])
    ensures i + 1 < |pages| ==> pages[i].nextToken.Some?
  {
    hide PageOf, Fetch, PageIs, DecodeToken, Listing, Carries, Sound;
    assert Linked(codec, requests, list, pages, i);
    if i == 0 {
      StartCarries(first, list);
      PageOfChain(codec, first, list, 0, START);
    } else {
      PageInChain(codec, first, requests, list, pages, i - 1);
      NextInChain(codec, first, list, Behind(i - 1, first.pageSize), pages[i - 1], requests[i]);
    }
    if i + 1 < |pages| {
      assert Linked(codec, requests, list, pages, i + 1);
    }
  }

  function AllNodes(pages: seq<Page>): seq<Node> {
    if pages == [] then [] else AllNodes(pages[..|pages| - 1]) + pages[|pages| - 1].nodes
  }

  lemma ChainLists(codec: Codec, first: Request, requests: seq<Request>, list: seq<Node>, pages: seq<Page>)
    requires ListingChain(codec, first, requests, list, pages)
    ensures Listing(first.branch, list)
  {
    hide Chain, Listing;
  }

  lemma LastNodes(pages: seq<Page>)
    requires pages != []
    ensures AllNodes(pages) == AllNodes(pages[..|pages| - 1]) + pages[|pages| - 1].nodes
  {
  }

  /** A token is given exactly after a full page that is not truncated and not the last. */
  lemma FullPage(codec: Codec, request: Request, list: seq<Node>, k: nat, page: Page)
    requires PageIs(codec, request, list, k, page)
    ensures page.nextToken.Some? ==> !page.truncated && page.nodes == list[k..k + request.pageSize]
                                     && k + request.pageSize < |list|
    ensures !page.truncated ==> page.nodes == list[k..Lesser(|list|, k + request.pageSize)]
  {
    hide Accepted, Refuses, Through, CountsOf;
  }

  /** The pages of a chain that were continued are the listing from its start, without a gap or a repetition. */
  lemma {:induction false} ContinuedPagesAreAPrefix(codec: Codec, first: Request, requests: seq<Request>,
                                                    list: seq<Node>, pages: seq<Page>, n: nat)
    requires ListingChain(codec, first, requests, list, pages) && n < |pages|
    ensures var k := Behind(n, first.pageSize); k <= |list| && AllNodes(pages[..n]) == list[..k]
    ensures forall i | 0 <= i < n :: !pages[i].truncated
  {
    var size := first.pageSize;
    hide ListingChain, PageIs;
    if n == 0 {
      assert pages[..0] == [] && list[..0] == [];
    } else {
      var k := Behind(n - 1, size);
      ContinuedPagesAreAPrefix(codec, first, requests, list, pages, n - 1);
      PageInChain(codec, first, requests, list, pages, n - 1);
      FullPage(codec, first, list, k, pages[n - 1]);
      assert pages[..n][..n - 1] == pages[..n - 1];
      assert list[..k] + list[k..k + size] == list[..k + size];
    }
  }

  /** The counts and bytes of every page of a chain are those of one uninterrupted retention. */
  lemma CheckpointsAreUninterrupted(codec: Codec, first: Request, requests: seq<Request>, list: seq<Node>,
                                    pages: seq<Page>, i: nat, k: nat)
    requires ListingChain(codec, first, requests, list, pages) && i < |pages| && k == Behind(i, first.pageSize)
    ensures k <= |list|
    ensures var m := Lesser(|list|, k + first.pageSize);
            && pages[i].counts == CountsOf(Through(list, m)) && pages[i].bytes == Through(list, m).bytes
            && pages[i].nodes == Accepted(Through(list, k), list[k..m])
  {
    hide ListingChain, Behind, Accepted, Refuses, Through, CountsOf, EncodeToken;
    PageInChain(codec, first, requests, list, pages, i);
  }

  lemma LastPage(codec: Codec, request: Request, list: seq<Node>, k: nat, page: Page)
    requires Listing(request.branch, list) && k <= |list|
    requires PageIs(codec, request, list, k, page) && page.nextToken.None?
    ensures page.truncated <==> Refuses(NOTHING, list)
    ensures !page.truncated ==> page.nodes == list[k..]
  {
    hide Refuses, Listing, Through, Accepted, CountsOf;
    assert list[..|list|] == list;
    var seen := Lesser(|list|, k + request.pageSize + 1);
    if page.truncated && !Refuses(NOTHING, list) {
      NothingRefusedBefore(request.branch, list, seen, |list|);
    }
  }

  /**
   A chain that ends has returned the whole listing, unless its last page is truncated; and that is so exactly
   where one retention of the whole listing would refuse a node.
   */
  lemma EndedChainIsWhole(codec: Codec, first: Request, requests: seq<Request>, list: seq<Node>, pages: seq<Page>)
    requires pages != [] && ListingChain(codec, first, requests, list, pages) && pages[|pages| - 1].nextToken.None?
    ensures pages[|pages| - 1].truncated <==> Refuses(NOTHING, list)
    ensures !pages[|pages| - 1].truncated ==> AllNodes(pages) == list
  {
    hide *;
    ChainLists(codec, first, requests, list, pages);
    var n := |pages| - 1;
    var k, last := Behind(n, first.pageSize), pages[n];
    ContinuedPagesAreAPrefix(codec, first, requests, list, pages, n);
    PageInChain(codec, first, requests, list, pages, n);
    LastPage(codec, first, list, k, last);
    LastNodes(pages);
    assert list[..k] + list[k..] == list;
  }

  /**
   A chain goes on as long as it gives tokens: a request with the last token is answered exactly if it lists the
   same thing, under whatever operation id, and its page continues the chain.
   */
  lemma ChainGoesOn(codec: Codec, first: Request, requests: seq<Request>, list: seq<Node>, pages: seq<Page>,
                    request: Request)
    requires ListingChain(codec, first, requests, list, pages) && Follows(pages[|pages| - 1], request)
    ensures Answer(codec, request, list).Some? <==> Alike(first, request)
    ensures Alike(first, request) ==>
              Chain(codec, requests + [request], list, pages + [Answer(codec, request, list).value])
  {
    hide Sound, Answer, PageIs, Listing, Alike;
    var n := |pages| - 1;
    PageInChain(codec, first, requests, list, pages, n);
    NextInChain(codec, first, list, Behind(n, first.pageSize), pages[n], request);
    if Alike(first, request) {
      var asked, more := requests + [request], pages + [Answer(codec, request, list).value];
      forall i: nat | i < |more|
        ensures Linked(codec, asked, list, more, i)
      {
        if i < |pages| {
          assert Linked(codec, requests, list, pages, i);
          assert asked[i] == requests[i] && more[i] == pages[i] && (i > 0 ==> more[i - 1] == pages[i - 1]);
        }
      }
    }
  }
}
