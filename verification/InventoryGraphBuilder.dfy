/** The graph endpoint as it runs: one builder that grows its lists, sets and counters in place. */
module InventoryGraphBuilder {
  import opened InventoryGraphContents
  import opened InventoryGraphRules
  import opened InventoryGraphTheorems

  class Builder {
    const limit: nat
    var nodes: seq<Node>
    var edges: seq<Edge>
    var nodeIds: set<NodeId>
    var edgeIds: set<Edge>
    var truncated: bool

    ghost function View(): State
      reads this
    {
      State(nodes, edges, nodeIds, edgeIds, truncated)
    }

    constructor (limit: nat)
      ensures this.limit == limit && View() == EMPTY
    {
      this.limit := limit;
      nodes, edges, nodeIds, edgeIds, truncated := [], [], {}, {}, false;
    }

    /** True when the node is in the graph afterwards; a full graph refuses new nodes and says so. */
    method AddNode(id: NodeId, caption: string) returns (present: bool)
      modifies this
      ensures View() == PutNode(old(View()), limit, id, caption)
      ensures present == !Refused(old(View()), limit, id)
    {
      if id in nodeIds {
        return true;
      }
      if |nodes| >= limit {
        truncated := true;
        return false;
      }
      nodeIds := nodeIds + {id};
      nodes := nodes + [Node(id, caption)];
      present := true;
    }

    method AddEdge(e: Edge)
      modifies this
      ensures View() == PutEdge(old(View()), e)
    {
      if e.source !in nodeIds || e.target !in nodeIds {
        return;
      }
      if e in edgeIds {
        return;
      }
      edgeIds := edgeIds + {e};
      edges := edges + [e];
    }

    method AttachItem(item: Item) returns (present: bool)
      modifies this
      ensures View() == Attach(old(View()), limit, item)
      ensures present == !Refused(old(View()), limit, item.id)
    {
      present := AddNode(item.id, item.caption);
      if present {
        AddEdge(EdgeOf(item));
      }
    }

    method AttachItems(items: seq<Item>)
      modifies this
      ensures View() == AttachAll(old(View()), limit, items)
    {
      for i := 0 to |items|
        invariant View() == AttachAll(old(View()), limit, items[..i])
      {
        assert items[..i + 1][..i] == items[..i];
        var _ := AttachItem(items[i]);
      }
      assert items[..|items|] == items;
    }

    /** The nodes of one asset; false when the asset itself was refused. */
    method AddOne(a: Asset) returns (present: bool)
      modifies this
      ensures View() == AddAsset(old(View()), limit, a)
      ensures present == !Refused(old(View()), limit, AssetNode(a.id))
    {
      present := AddNode(AssetNode(a.id), a.name);
      if present {
        ghost var s := View();
        var _ := AttachItem(SegmentItem(a));
        AttachItems(SourceItems(a));
        AttachItems(DependencyItems(a));
        AttachAllOne(s, limit, SegmentItem(a));
        AttachAllAppend(s, limit, [SegmentItem(a)], SourceItems(a));
        AttachAllAppend(s, limit, [SegmentItem(a)] + SourceItems(a), DependencyItems(a));
      }
    }

    method AddAll(assets: seq<Asset>)
      modifies this
      ensures View() == AddAssets(old(View()), limit, assets).state
    {
      for i := 0 to |assets|
        invariant AddAssets(old(View()), limit, assets[..i]) == Assets(View(), false)
      {
        assert assets[..i + 1][..i] == assets[..i];
        var present := AddOne(assets[i]);
        if !present {
          StoppedStays(old(View()), limit, assets, i + 1);
          return;
        }
      }
      assert assets[..|assets|] == assets;
    }

    /** Alerts or CVEs in query order, at most `quota` for each asset. */
    method HangItems(items: seq<Item>, quota: nat)
      modifies this
      ensures View() == HangAll(old(View()), limit, quota, items).state
    {
      var counts: map<nat, nat> := map[];
      for i := 0 to |items|
        invariant HangAll(old(View()), limit, quota, items[..i]) == Hanging(View(), counts)
      {
        assert items[..i + 1][..i] == items[..i];
        var item := items[i];
        if CountOf(counts, item.asset) >= quota {
          continue;
        }
        var present := AttachItem(item);
        if present {
          counts := counts[item.asset := CountOf(counts, item.asset) + 1];
        }
      }
      assert items[..|items|] == items;
    }
  }

  lemma AttachAllOne(s: State, limit: nat, item: Item)
    ensures AttachAll(s, limit, [item]) == Attach(s, limit, item)
  {
    assert AttachAll(s, limit, [item][..0]) == s;
  }

  lemma AttachAllNext(s: State, limit: nat, items: seq<Item>, item: Item)
    ensures AttachAll(s, limit, items + [item]) == Attach(AttachAll(s, limit, items), limit, item)
  {
    assert (items + [item])[..|items|] == items;
  }

  lemma {:induction false} AttachAllAppend(s: State, limit: nat, front: seq<Item>, back: seq<Item>)
    ensures AttachAll(s, limit, front + back) == AttachAll(AttachAll(s, limit, front), limit, back)
  {
    if back == [] {
      assert front + back == front;
    } else {
      var last := |back| - 1;
      AttachAllAppend(s, limit, front, back[..last]);
      assert front + back == (front + back[..last]) + [back[last]];
      AttachAllNext(s, limit, front + back[..last], back[last]);
    }
  }

  /** Once an asset was refused the remaining ones are not looked at. */
  lemma {:induction false} StoppedStays(s: State, limit: nat, assets: seq<Asset>, k: nat)
    requires k <= |assets| && AddAssets(s, limit, assets[..k]).stopped
    ensures AddAssets(s, limit, assets) == AddAssets(s, limit, assets[..k])
  {
    if k < |assets| {
      var before := assets[..|assets| - 1];
      assert before[..k] == assets[..k];
      StoppedStays(s, limit, before, k);
    } else {
      assert assets[..k] == assets;
    }
  }

  /** The bounded graph of an inventory, with everything a reader may rely on. */
  method InventoryGraph(limit: nat, assetTable: seq<Asset>, alertTable: seq<AlertRow>, cveTable: seq<CveLink>, vulnerabilities: bool)
    returns (nodes: seq<Node>, edges: seq<Edge>, truncated: bool)
    ensures var g := Build(limit, assetTable, alertTable, cveTable, vulnerabilities);
            nodes == g.nodes && edges == g.edges && truncated == g.truncated
    ensures |nodes| <= limit && (truncated ==> |nodes| == limit)
    ensures forall i, j :: 0 <= i < j < |nodes| ==> nodes[i].id != nodes[j].id
    ensures forall e :: e in edges ==> e.source in Ids(nodes) && e.target in Ids(nodes)
    ensures forall n :: n in nodes && !n.id.AssetNode? ==>
              exists e :: e in edges && e.target == n.id && e.source.AssetNode?
    ensures forall e :: e in edges ==> HasItsRow(limit, assetTable, alertTable, cveTable, vulnerabilities, e)
    ensures !truncated ==> forall e :: e in edges <==> IsDue(limit, assetTable, alertTable, cveTable, vulnerabilities, e)
  {
    var assets := Take(assetTable, limit);
    var b := new Builder(limit);
    b.AddAll(assets);
    if assets != [] && b.nodes != [] {
      b.HangItems(Take(OpenAlerts(assets, alertTable), limit * 2), MAX_ALERTS);
      if vulnerabilities {
        b.HangItems(Take(CveLinks(assets, cveTable), limit * 4), MAX_CVES);
      }
    }
    nodes, edges, truncated := b.nodes, b.edges, b.truncated;
    GraphHasNoOrphans(limit, assetTable, alertTable, cveTable, vulnerabilities);
    Published(b.View(), limit);
    EdgesOfTables(limit, assetTable, alertTable, cveTable, vulnerabilities);
  }

  /** An edge that stands for a row of the tables. */
  ghost predicate HasItsRow(limit: nat, assetTable: seq<Asset>, alerts: seq<AlertRow>, cves: seq<CveLink>, vulnerabilities: bool, e: Edge) {
    || FromChosenAsset(assetTable, limit, e)
    || FromQueriedAlert(assetTable, limit, alerts, e)
    || (vulnerabilities && FromQueriedLink(assetTable, limit, cves, e))
  }

  /** The same within the quotas. */
  ghost predicate IsDue(limit: nat, assetTable: seq<Asset>, alerts: seq<AlertRow>, cves: seq<CveLink>, vulnerabilities: bool, e: Edge) {
    || FromChosenAsset(assetTable, limit, e)
    || FromFirstAlerts(assetTable, limit, alerts, e)
    || (vulnerabilities && FromFirstLinks(assetTable, limit, cves, e))
  }

  lemma EdgesOfTables(limit: nat, assetTable: seq<Asset>, alerts: seq<AlertRow>, cves: seq<CveLink>, vulnerabilities: bool)
    ensures var g := Build(limit, assetTable, alerts, cves, vulnerabilities);
            && (forall e :: e in g.edges ==> HasItsRow(limit, assetTable, alerts, cves, vulnerabilities, e))
            && (!g.truncated ==> forall e :: e in g.edges <==> IsDue(limit, assetTable, alerts, cves, vulnerabilities, e))
  {
    var g := Build(limit, assetTable, alerts, cves, vulnerabilities);
    GraphHasNoOrphans(limit, assetTable, alerts, cves, vulnerabilities);
    forall e | e in g.edges
      ensures HasItsRow(limit, assetTable, alerts, cves, vulnerabilities, e)
    {
      EveryEdgeHasItsRow(limit, assetTable, alerts, cves, vulnerabilities, e);
    }
    if !g.truncated {
      forall e
        ensures e in g.edges <==> IsDue(limit, assetTable, alerts, cves, vulnerabilities, e)
      {
        UntruncatedGraphShowsTheTables(limit, assetTable, alerts, cves, vulnerabilities, e);
      }
    }
  }

  /** What consistency and the absence of orphans say about the published lists. */
  lemma Published(g: State, limit: nat)
    requires Consistent(g, limit) && NoOrphans(g)
    ensures forall e :: e in g.edges ==> e.source in Ids(g.nodes) && e.target in Ids(g.nodes)
    ensures forall n :: n in g.nodes && !n.id.AssetNode? ==>
              exists e :: e in g.edges && e.target == n.id && e.source.AssetNode?
  {
    forall n | n in g.nodes && !n.id.AssetNode?
      ensures exists e :: e in g.edges && e.target == n.id && e.source.AssetNode?
    {
      assert n.id in g.nodeIds;
      var e :| e in g.edgeIds && e.target == n.id && e.source.AssetNode? && e.source in g.nodeIds;
      assert e in g.edges;
    }
  }
}
