/** Which nodes of a list a retention keeps, by their positions. */
module CatalogSelection {
  import opened Catalog

  /** The positions of the nodes that are kept, in order. */
  ghost function Positions(r: Retained, nodes: seq<Node>): seq<nat> {
    if nodes == [] then []
    else
      var before, last := nodes[..|nodes| - 1], nodes[|nodes| - 1];
      Positions(r, before) + if Accepts(KeptAll(r, before), last) then [|before|] else []
  }

  /** The nodes at the positions. */
  ghost predicate Selects(nodes: seq<Node>, positions: seq<nat>, selected: seq<Node>) {
    && (forall i | 0 <= i < |positions| :: positions[i] < |nodes|)
    && (forall i, j | 0 <= i < j < |positions| :: positions[i] < positions[j])
    && |selected| == |positions| && forall i | 0 <= i < |positions| :: selected[i] == nodes[positions[i]]
  }

  /** There is room for the node at `k`, or it is kept already. */
  ghost predicate Fits(r: Retained, nodes: seq<Node>, k: nat)
    requires k < |nodes|
  {
    CanRetain(KeptAll(r, nodes[..k]), nodes[k])
  }

  /** An identity is kept at a position before `k`. */
  ghost predicate TakenBefore(nodes: seq<Node>, positions: seq<nat>, k: nat, id: Identity) {
    exists j | j in positions && j < k :: j < |nodes| && nodes[j].identity == id
  }

  lemma {:induction false} AcceptedAtPositions(r: Retained, nodes: seq<Node>)
    ensures Selects(nodes, Positions(r, nodes), Accepted(r, nodes))
  {
    hide KeptAll, Accepts;
    if nodes != [] {
      AcceptedAtPositions(r, nodes[..|nodes| - 1]);
    }
  }

  /** The positions of a beginning are the positions in it. */
  lemma {:induction false} PositionsBefore(r: Retained, nodes: seq<Node>, k: nat, j: nat)
    requires k <= |nodes|
    ensures j in Positions(r, nodes[..k]) <==> j < k && j in Positions(r, nodes)
    decreases |nodes|
  {
    hide KeptAll, Accepts;
    AcceptedAtPositions(r, nodes[..k]);
    if k == |nodes| {
      assert nodes[..k] == nodes;
    } else {
      var before := nodes[..|nodes| - 1];
      PositionsBefore(r, before, k, j);
      assert before[..k] == nodes[..k];
    }
  }

  lemma PositionIsAccepted(r: Retained, nodes: seq<Node>, k: nat)
    requires k < |nodes|
    ensures k in Positions(r, nodes) <==> Accepts(KeptAll(r, nodes[..k]), nodes[k])
  {
    hide KeptAll, Accepts;
    var part := nodes[..k + 1];
    PositionsBefore(r, nodes, k + 1, k);
    PositionsBefore(r, nodes, k, k);
    assert part[..k] == nodes[..k];
  }

  lemma {:induction false} KeptIdentities(r: Retained, nodes: seq<Node>, id: Identity)
    ensures id in KeptAll(r, nodes).identities
       <==> id in r.identities || TakenBefore(nodes, Positions(r, nodes), |nodes|, id)
  {
    hide CanRetain;
    if nodes != [] {
      var n := |nodes| - 1;
      var before := nodes[..n];
      KeptIdentities(r, before, id);
      AcceptedAtPositions(r, before);
      var earlier, now := Positions(r, before), Positions(r, nodes);
      if TakenBefore(before, earlier, n, id) {
        var j :| j in earlier && j < n && before[j].identity == id;
        assert j in now && nodes[j].identity == id;
      }
    }
  }

  lemma KeptBefore(r: Retained, nodes: seq<Node>, k: nat, id: Identity)
    requires k <= |nodes|
    ensures id in KeptAll(r, nodes[..k]).identities
       <==> id in r.identities || TakenBefore(nodes, Positions(r, nodes), k, id)
  {
    hide KeptAll, Positions;
    KeptIdentities(r, nodes[..k], id);
    forall j: nat
      ensures j in Positions(r, nodes[..k]) <==> j < k && j in Positions(r, nodes)
    {
      PositionsBefore(r, nodes, k, j);
    }
  }

  /** A node is kept exactly when it is not kept already and there is room. */
  lemma SelectedMeaning(r: Retained, nodes: seq<Node>, k: nat)
    requires k < |nodes|
    ensures k in Positions(r, nodes)
       <==> && nodes[k].identity !in r.identities && !TakenBefore(nodes, Positions(r, nodes), k, nodes[k].identity)
            && Fits(r, nodes, k)
  {
    hide KeptAll, Positions, CanRetain, TakenBefore;
    PositionIsAccepted(r, nodes, k);
    KeptBefore(r, nodes, k, nodes[k].identity);
  }

  lemma {:induction false} RefusesMeaning(r: Retained, nodes: seq<Node>)
    ensures Refuses(r, nodes) <==> exists k | 0 <= k < |nodes| :: !Fits(r, nodes, k)
  {
    hide KeptAll, CanRetain;
    if nodes != [] {
      var n := |nodes| - 1;
      var before := nodes[..n];
      RefusesMeaning(r, before);
      forall k | 0 <= k < n
        ensures Fits(r, before, k) <==> Fits(r, nodes, k)
      {
        assert before[..k] == nodes[..k];
      }
      assert Refuses(r, nodes) <==> Refuses(r, before) || !Fits(r, nodes, n);
    }
  }

  /** Where there is room for every node, the first of each identity is kept that was not kept before. */
  lemma FirstIsSelected(r: Retained, nodes: seq<Node>, k: nat)
    requires k < |nodes| && forall j | 0 <= j <= k :: Fits(r, nodes, j)
    ensures k in Positions(r, nodes)
       <==> nodes[k].identity !in r.identities && forall j | 0 <= j < k :: nodes[j].identity != nodes[k].identity
  {
    var id, positions := nodes[k].identity, Positions(r, nodes);
    hide KeptAll, Positions, CanRetain, Fits;
    SelectedMeaning(r, nodes, k);
    if !TakenBefore(nodes, positions, k, id) && id !in r.identities {
      forall j | 0 <= j < k
        ensures nodes[j].identity != id
      {
        SelectedMeaning(r, nodes, j);
        assert TakenBefore(nodes, positions, j, id) ==> TakenBefore(nodes, positions, k, id);
      }
    }
  }
}
