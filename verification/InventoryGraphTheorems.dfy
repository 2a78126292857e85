/** What a returned inventory graph is worth: consistency, no orphans, quotas, completeness. */
module InventoryGraphTheorems {
  import opened InventoryGraphRules

  // ---------- the properties ----------

  function Ids(nodes: seq<Node>): set<NodeId> {
    set n | n in nodes :: n.id
  }

  /** No repeated node, no repeated edge, no edge without its ends, never over the budget. */
  ghost predicate Consistent(s: State, limit: nat) {
    && (forall i, j :: 0 <= i < j < |s.nodes| ==> s.nodes[i].id != s.nodes[j].id)
    && (forall i, j :: 0 <= i < j < |s.edges| ==> s.edges[i] != s.edges[j])
    && s.nodeIds == Ids(s.nodes)
    && (forall e :: e in s.edgeIds <==> e in s.edges)
    && (forall e :: e in s.edgeIds ==> e.source in s.nodeIds && e.target in s.nodeIds)
    && |s.nodes| <= limit
    && (s.truncated ==> |s.nodes| == limit)
  }

  /** Every node that is not an asset is the target of an edge from an asset in the graph. */
  ghost predicate NoOrphans(s: State) {
    forall id :: id in s.nodeIds && !id.AssetNode? ==>
      exists e :: e in s.edgeIds && e.target == id && e.source.AssetNode? && e.source in s.nodeIds
  }

  /** Either every asset got its node or the budget is used up for good. */
  ghost predicate Covered(s: State, limit: nat, assets: seq<Asset>) {
    |s.nodes| == limit || forall k :: 0 <= k < |assets| ==> AssetNode(assets[k].id) in s.nodeIds
  }

  ghost predicate Extends(s: State, t: State) {
    && s.nodeIds <= t.nodeIds && s.edgeIds <= t.edgeIds
    && |s.nodes| <= |t.nodes| && (s.truncated ==> t.truncated)
  }

  // ---------- single steps ----------

  lemma PutNodeKeeps(s: State, limit: nat, id: NodeId, caption: string)
    requires Consistent(s, limit)
    ensures Consistent(PutNode(s, limit, id, caption), limit)
  {
    var t := PutNode(s, limit, id, caption);
    if t.nodes != s.nodes {
      assert forall n :: n in t.nodes <==> n in s.nodes || n == Node(id, caption);
      assert forall i :: 0 <= i < |s.nodes| ==> s.nodes[i] in s.nodes;
    }
  }

  lemma PutEdgeKeeps(s: State, limit: nat, e: Edge)
    requires Consistent(s, limit)
    ensures Consistent(PutEdge(s, e), limit)
  {
    var t := PutEdge(s, e);
    if t.edges != s.edges {
      assert forall x :: x in t.edges <==> x in s.edges || x == e;
      assert forall i :: 0 <= i < |s.edges| ==> s.edges[i] in s.edgeIds;
    }
  }

  lemma AttachKeeps(s: State, limit: nat, item: Item)
    requires Consistent(s, limit)
    ensures Consistent(Attach(s, limit, item), limit) && Extends(s, Attach(s, limit, item))
  {
    PutNodeKeeps(s, limit, item.id, item.caption);
    PutEdgeKeeps(PutNode(s, limit, item.id, item.caption), limit, EdgeOf(item));
  }

  /**
    Hanging a node on an asset makes no orphan when the asset is there.  When it is not
    there the graph must be full, so that only nodes already hung can be met again.
   */
  lemma AttachMakesNoOrphan(s: State, limit: nat, item: Item)
    requires NoOrphans(s) && (AssetNode(item.asset) in s.nodeIds || |s.nodes| >= limit)
    ensures NoOrphans(Attach(s, limit, item))
  {
    var t := Attach(s, limit, item);
    forall id | id in t.nodeIds && !id.AssetNode?
      ensures exists e :: e in t.edgeIds && e.target == id && e.source.AssetNode? && e.source in t.nodeIds
    {
      if id in s.nodeIds {
        var e :| e in s.edgeIds && e.target == id && e.source.AssetNode? && e.source in s.nodeIds;
        assert e in t.edgeIds;
      } else {
        assert EdgeOf(item) in t.edgeIds;
      }
    }
  }

  // ---------- the asset phase ----------

  lemma {:induction false} AttachAllKeeps(s: State, limit: nat, asset: nat, items: seq<Item>)
    requires Consistent(s, limit) && NoOrphans(s) && AssetNode(asset) in s.nodeIds
    requires forall k :: 0 <= k < |items| ==> items[k].asset == asset && !items[k].id.AssetNode?
    ensures var t := AttachAll(s, limit, items);
            && Consistent(t, limit) && NoOrphans(t) && Extends(s, t)
            && (forall x :: AssetNode(x) in t.nodeIds ==> AssetNode(x) in s.nodeIds)
  {
    if items != [] {
      var last := |items| - 1;
      AttachAllKeeps(s, limit, asset, items[..last]);
      var t := AttachAll(s, limit, items[..last]);
      AttachKeeps(t, limit, items[last]);
      AttachMakesNoOrphan(t, limit, items[last]);
    }
  }

  lemma ItemsBelong(a: Asset)
    ensures forall k :: 0 <= k < |Items(a)| ==> Items(a)[k].asset == a.id && !Items(a)[k].id.AssetNode?
  {
  }

  lemma AddAssetKeeps(s: State, limit: nat, a: Asset)
    requires Consistent(s, limit) && NoOrphans(s)
    ensures var t := AddAsset(s, limit, a);
            && Consistent(t, limit) && NoOrphans(t) && Extends(s, t)
            && (Refused(s, limit, AssetNode(a.id)) ==> t.truncated && t.nodeIds == s.nodeIds)
            && (!Refused(s, limit, AssetNode(a.id)) ==> AssetNode(a.id) in t.nodeIds)
            && (forall x :: AssetNode(x) in t.nodeIds ==> AssetNode(x) in s.nodeIds || x == a.id)
  {
    PutNodeKeeps(s, limit, AssetNode(a.id), a.name);
    if !Refused(s, limit, AssetNode(a.id)) {
      var t := PutNode(s, limit, AssetNode(a.id), a.name);
      assert NoOrphans(t) by {
        forall id | id in t.nodeIds && !id.AssetNode?
          ensures exists e :: e in t.edgeIds && e.target == id && e.source.AssetNode? && e.source in t.nodeIds
        {
          var e :| e in s.edgeIds && e.target == id && e.source.AssetNode? && e.source in s.nodeIds;
        }
      }
      ItemsBelong(a);
      AttachAllKeeps(t, limit, a.id, Items(a));
    }
  }

  lemma {:induction false} AddAssetsKeeps(limit: nat, assets: seq<Asset>)
    ensures var o := AddAssets(EMPTY, limit, assets);
            Consistent(o.state, limit) && NoOrphans(o.state) && (o.stopped ==> o.state.truncated)
  {
    if assets != [] {
      var last := |assets| - 1;
      AddAssetsKeeps(limit, assets[..last]);
      var o := AddAssets(EMPTY, limit, assets[..last]);
      if !o.stopped {
        AddAssetKeeps(o.state, limit, assets[last]);
      }
    }
  }

  lemma {:induction false} AttachAllGrows(s: State, limit: nat, items: seq<Item>)
    ensures Extends(s, AttachAll(s, limit, items))
  {
    if items != [] { AttachAllGrows(s, limit, items[..|items| - 1]); }
  }

  lemma AddAssetGrows(s: State, limit: nat, a: Asset)
    ensures Extends(s, AddAsset(s, limit, a))
    ensures !Refused(s, limit, AssetNode(a.id)) ==> AssetNode(a.id) in AddAsset(s, limit, a).nodeIds
  {
    AttachAllGrows(PutNode(s, limit, AssetNode(a.id), a.name), limit, Items(a));
  }

  /** The ids of the assets' nodes so far. */
  ghost function NodesOf(limit: nat, assets: seq<Asset>): set<NodeId> { AddAssets(EMPTY, limit, assets).state.nodeIds }

  predicate Stopped(limit: nat, assets: seq<Asset>) { AddAssets(EMPTY, limit, assets).stopped }

  lemma LastAssetAdded(limit: nat, before: seq<Asset>, a: Asset)
    requires !Stopped(limit, before + [a])
    ensures !Stopped(limit, before)
    ensures NodesOf(limit, before) <= NodesOf(limit, before + [a]) && AssetNode(a.id) in NodesOf(limit, before + [a])
  {
    assert (before + [a])[..|before|] == before;
    AddAssetGrows(AddAssets(EMPTY, limit, before).state, limit, a);
  }

  lemma {:induction false} AddAssetsPresent(limit: nat, assets: seq<Asset>, k: nat)
    requires k < |assets| && !Stopped(limit, assets)
    ensures AssetNode(assets[k].id) in NodesOf(limit, assets)
  {
    var last := |assets| - 1;
    var before := assets[..last];
    assert assets == before + [assets[last]];
    LastAssetAdded(limit, before, assets[last]);
    if k < last {
      AddAssetsPresent(limit, before, k);
    }
  }

  /** Only listed assets get nodes. */
  lemma {:induction false} AddAssetsListed(limit: nat, assets: seq<Asset>, x: nat)
    requires AssetNode(x) in AddAssets(EMPTY, limit, assets).state.nodeIds
    ensures IsListed(assets, x)
  {
    var last := |assets| - 1;
    var o := AddAssets(EMPTY, limit, assets[..last]);
    AddAssetsKeeps(limit, assets[..last]);
    if !o.stopped { AddAssetKeeps(o.state, limit, assets[last]); }
    if AssetNode(x) in o.state.nodeIds {
      AddAssetsListed(limit, assets[..last], x);
      var k :| 0 <= k < last && assets[..last][k].id == x;
      assert assets[k].id == x;
    } else {
      assert assets[last].id == x;
    }
  }

  /** The crossing argument: a refused asset means a full graph, and full stays full. */
  lemma AssetsCovered(limit: nat, assets: seq<Asset>)
    ensures Covered(AddAssets(EMPTY, limit, assets).state, limit, assets)
  {
    AddAssetsKeeps(limit, assets);
    if !AddAssets(EMPTY, limit, assets).stopped {
      forall k | 0 <= k < |assets|
        ensures AssetNode(assets[k].id) in AddAssets(EMPTY, limit, assets).state.nodeIds
      {
        AddAssetsPresent(limit, assets, k);
      }
    }
  }

  // ---------- the alert and CVE phases ----------

  ghost predicate Concern(items: seq<Item>, assets: seq<Asset>) {
    forall k :: 0 <= k < |items| ==> IsListed(assets, items[k].asset) && !items[k].id.AssetNode?
  }

  lemma {:induction false} HangAllKeeps(s: State, limit: nat, quota: nat, items: seq<Item>, assets: seq<Asset>)
    requires Consistent(s, limit) && NoOrphans(s) && Covered(s, limit, assets) && Concern(items, assets)
    ensures var t := HangAll(s, limit, quota, items).state;
            Consistent(t, limit) && NoOrphans(t) && Covered(t, limit, assets) && Extends(s, t)
  {
    if items != [] {
      var last := |items| - 1;
      var before := items[..last];
      assert Concern(before, assets) by {
        assert forall k :: 0 <= k < last ==> before[k] == items[k];
      }
      HangAllKeeps(s, limit, quota, before, assets);
      var t := HangAll(s, limit, quota, before).state;
      AttachKeeps(t, limit, items[last]);
      assert IsListed(assets, items[last].asset);
      AttachMakesNoOrphan(t, limit, items[last]);
    }
  }

  lemma {:induction false} AlertsConcern(assets: seq<Asset>, table: seq<AlertRow>)
    ensures Concern(OpenAlerts(assets, table), assets)
  {
    if table != [] { AlertsConcern(assets, table[..|table| - 1]); }
  }

  lemma {:induction false} CvesConcern(assets: seq<Asset>, table: seq<CveLink>)
    ensures Concern(CveLinks(assets, table), assets)
  {
    if table != [] { CvesConcern(assets, table[..|table| - 1]); }
  }

  lemma AlertPhaseKeeps(s: State, limit: nat, assets: seq<Asset>, table: seq<AlertRow>)
    requires Consistent(s, limit) && NoOrphans(s) && Covered(s, limit, assets)
    ensures var t := HangAll(s, limit, MAX_ALERTS, Take(OpenAlerts(assets, table), limit * 2)).state;
            Consistent(t, limit) && NoOrphans(t) && Covered(t, limit, assets)
  {
    AlertsConcern(assets, table);
    HangAllKeeps(s, limit, MAX_ALERTS, Take(OpenAlerts(assets, table), limit * 2), assets);
  }

  lemma CvePhaseKeeps(s: State, limit: nat, assets: seq<Asset>, table: seq<CveLink>)
    requires Consistent(s, limit) && NoOrphans(s) && Covered(s, limit, assets)
    ensures var t := HangAll(s, limit, MAX_CVES, Take(CveLinks(assets, table), limit * 4)).state;
            Consistent(t, limit) && NoOrphans(t) && Covered(t, limit, assets)
  {
    CvesConcern(assets, table);
    HangAllKeeps(s, limit, MAX_CVES, Take(CveLinks(assets, table), limit * 4), assets);
  }

  /** Main result: every returned graph is consistent, within budget and free of orphans. */
  lemma GraphHasNoOrphans(limit: nat, assets: seq<Asset>, alerts: seq<AlertRow>, cves: seq<CveLink>, vulnerabilities: bool)
    ensures var g := Build(limit, assets, alerts, cves, vulnerabilities);
            Consistent(g, limit) && NoOrphans(g)
  {
    var listed := Take(assets, limit);
    var s := AddAssets(EMPTY, limit, listed).state;
    AddAssetsKeeps(limit, listed);
    AssetsCovered(limit, listed);
    AlertPhaseKeeps(s, limit, listed, alerts);
    var t := HangAll(s, limit, MAX_ALERTS, Take(OpenAlerts(listed, alerts), limit * 2)).state;
    CvePhaseKeeps(t, limit, listed, cves);
  }

  /** A full graph takes no further node. */
  lemma {:induction false} FullStaysFull(s: State, limit: nat, quota: nat, items: seq<Item>)
    requires |s.nodes| >= limit
    ensures var t := HangAll(s, limit, quota, items).state; t.nodes == s.nodes && t.nodeIds == s.nodeIds
  {
    if items != [] {
      FullStaysFull(s, limit, quota, items[..|items| - 1]);
    }
  }

  /** If a listed asset was refused, the graph ends with the nodes of the asset phase: no alert or CVE node is added. */
  lemma RefusedAssetEndsGrowth(limit: nat, assets: seq<Asset>, alerts: seq<AlertRow>, cves: seq<CveLink>,
                               vulnerabilities: bool, k: nat)
    requires k < |Take(assets, limit)|
    requires AssetNode(Take(assets, limit)[k].id) !in Build(limit, assets, alerts, cves, vulnerabilities).nodeIds
    ensures var s := AddAssets(EMPTY, limit, Take(assets, limit)).state;
            var g := Build(limit, assets, alerts, cves, vulnerabilities);
            |s.nodes| == limit && g.nodes == s.nodes && g.nodeIds == s.nodeIds
  {
    var listed := Take(assets, limit);
    var s := AddAssets(EMPTY, limit, listed).state;
    var t := HangAll(s, limit, MAX_ALERTS, Take(OpenAlerts(listed, alerts), limit * 2)).state;
    HangAllGrows(s, limit, MAX_ALERTS, Take(OpenAlerts(listed, alerts), limit * 2));
    HangAllGrows(t, limit, MAX_CVES, Take(CveLinks(listed, cves), limit * 4));
    AssetsCovered(limit, listed);
    FullStaysFull(s, limit, MAX_ALERTS, Take(OpenAlerts(listed, alerts), limit * 2));
    FullStaysFull(t, limit, MAX_CVES, Take(CveLinks(listed, cves), limit * 4));
  }

  // ---------- what the edges say ----------

  ghost predicate FromAssets(assets: seq<Asset>, e: Edge) {
    exists k, j :: 0 <= k < |assets| && 0 <= j < |Items(assets[k])| && e == EdgeOf(Items(assets[k])[j])
  }

  ghost predicate FromItems(items: seq<Item>, e: Edge) {
    exists k :: 0 <= k < |items| && e == EdgeOf(items[k])
  }

  /** How many of the items concern an asset. */
  function Rank(items: seq<Item>, asset: nat): nat {
    if items == [] then 0
    else Rank(items[..|items| - 1], asset) + (if items[|items| - 1].asset == asset then 1 else 0)
  }

  /** The first `quota` items of each asset. */
  ghost predicate FromFirst(items: seq<Item>, quota: nat, e: Edge) {
    exists k :: 0 <= k < |items| && e == EdgeOf(items[k]) && Rank(items[..k], items[k].asset) < quota
  }

  lemma {:induction false} AttachAllEdges(s: State, limit: nat, items: seq<Item>, e: Edge)
    requires e in AttachAll(s, limit, items).edgeIds && e !in s.edgeIds
    ensures FromItems(items, e)
  {
    var last := |items| - 1;
    if e in AttachAll(s, limit, items[..last]).edgeIds {
      AttachAllEdges(s, limit, items[..last], e);
      var k :| 0 <= k < last && e == EdgeOf(items[..last][k]);
      assert e == EdgeOf(items[k]);
    } else {
      assert e == EdgeOf(items[last]);
    }
  }

  lemma {:induction false} AddAssetsEdges(limit: nat, assets: seq<Asset>, e: Edge)
    requires e in AddAssets(EMPTY, limit, assets).state.edgeIds
    ensures FromAssets(assets, e)
  {
    var last := |assets| - 1;
    var s := AddAssets(EMPTY, limit, assets[..last]).state;
    if e in s.edgeIds {
      AddAssetsEdges(limit, assets[..last], e);
      var k, j :| 0 <= k < last && 0 <= j < |Items(assets[..last][k])| && e == EdgeOf(Items(assets[..last][k])[j]);
      assert e == EdgeOf(Items(assets[k])[j]);
    } else {
      var a := assets[last];
      AttachAllEdges(PutNode(s, limit, AssetNode(a.id), a.name), limit, Items(a), e);
      var j :| 0 <= j < |Items(a)| && e == EdgeOf(Items(a)[j]);
      assert e == EdgeOf(Items(assets[last])[j]);
    }
  }

  lemma {:induction false} HangAllEdges(s: State, limit: nat, quota: nat, items: seq<Item>, e: Edge)
    requires e in HangAll(s, limit, quota, items).state.edgeIds && e !in s.edgeIds
    ensures FromItems(items, e)
  {
    var last := |items| - 1;
    if e in HangAll(s, limit, quota, items[..last]).state.edgeIds {
      HangAllEdges(s, limit, quota, items[..last], e);
      var k :| 0 <= k < last && e == EdgeOf(items[..last][k]);
      assert e == EdgeOf(items[k]);
    } else {
      assert e == EdgeOf(items[last]);
    }
  }

  // ---------- nothing is missing unless the graph says so ----------

  lemma {:induction false} AttachAllComplete(s: State, limit: nat, items: seq<Item>, k: nat)
    requires k < |items| && AssetNode(items[k].asset) in s.nodeIds && !AttachAll(s, limit, items).truncated
    ensures EdgeOf(items[k]) in AttachAll(s, limit, items).edgeIds
  {
    var last := |items| - 1;
    var t := AttachAll(s, limit, items[..last]);
    AttachAllGrows(s, limit, items[..last]);
    if k < last {
      AttachAllComplete(s, limit, items[..last], k);
    } else {
      assert !Refused(t, limit, items[last].id);
    }
  }

  lemma {:induction false} StoppedIsTruncated(limit: nat, assets: seq<Asset>)
    ensures AddAssets(EMPTY, limit, assets).stopped ==> AddAssets(EMPTY, limit, assets).state.truncated
  {
    if assets != [] { StoppedIsTruncated(limit, assets[..|assets| - 1]); }
  }

  lemma AddAssetComplete(s: State, limit: nat, a: Asset, item: Item)
    requires item in Items(a) && !AddAsset(s, limit, a).truncated
    ensures EdgeOf(item) in AddAsset(s, limit, a).edgeIds
  {
    var j :| 0 <= j < |Items(a)| && Items(a)[j] == item;
    ItemsBelong(a);
    AttachAllComplete(PutNode(s, limit, AssetNode(a.id), a.name), limit, Items(a), j);
  }

  /** An untruncated asset phase went through its last asset. */
  lemma UntruncatedStep(limit: nat, assets: seq<Asset>)
    requires assets != [] && !AddAssets(EMPTY, limit, assets).state.truncated
    ensures var last := |assets| - 1;
            var s, t := AddAssets(EMPTY, limit, assets[..last]).state, AddAssets(EMPTY, limit, assets).state;
            t == AddAsset(s, limit, assets[last]) && !s.truncated && s.edgeIds <= t.edgeIds
  {
    var last := |assets| - 1;
    StoppedIsTruncated(limit, assets[..last]);
    AddAssetGrows(AddAssets(EMPTY, limit, assets[..last]).state, limit, assets[last]);
  }

  lemma {:induction false} AddAssetsComplete(limit: nat, assets: seq<Asset>, k: nat, item: Item)
    requires k < |assets| && item in Items(assets[k]) && !AddAssets(EMPTY, limit, assets).state.truncated
    ensures EdgeOf(item) in AddAssets(EMPTY, limit, assets).state.edgeIds
  {
    var last := |assets| - 1;
    UntruncatedStep(limit, assets);
    if k == last {
      AddAssetComplete(AddAssets(EMPTY, limit, assets[..last]).state, limit, assets[last], item);
    } else {
      AddAssetsComplete(limit, assets[..last], k, item);
    }
  }

  lemma {:induction false} HangAllGrows(s: State, limit: nat, quota: nat, items: seq<Item>)
    ensures Extends(s, HangAll(s, limit, quota, items).state)
  {
    if items != [] { HangAllGrows(s, limit, quota, items[..|items| - 1]); }
  }

  /** Without a refusal the counter of an asset is its rank, up to the quota. */
  lemma {:induction false} HangCounts(s: State, limit: nat, quota: nat, items: seq<Item>, asset: nat)
    requires !HangAll(s, limit, quota, items).state.truncated
    ensures CountOf(HangAll(s, limit, quota, items).counts, asset)
         == if Rank(items, asset) < quota then Rank(items, asset) else quota
  {
    if items != [] {
      HangCounts(s, limit, quota, items[..|items| - 1], asset);
    }
  }

  lemma {:induction false} HangAllExact(s: State, limit: nat, quota: nat, items: seq<Item>, e: Edge)
    requires !HangAll(s, limit, quota, items).state.truncated
    requires forall k :: 0 <= k < |items| ==> AssetNode(items[k].asset) in s.nodeIds
    ensures e in HangAll(s, limit, quota, items).state.edgeIds <==> e in s.edgeIds || FromFirst(items, quota, e)
  {
    if items != [] {
      var last := |items| - 1;
      var before := items[..last];
      HangAllExact(s, limit, quota, before, e);
      HangAllGrows(s, limit, quota, before);
      HangCounts(s, limit, quota, before, items[last].asset);
      FromFirstNext(items, quota, e);
    }
  }

  lemma FromFirstNext(items: seq<Item>, quota: nat, e: Edge)
    requires items != []
    ensures var last := |items| - 1;
            FromFirst(items, quota, e) <==>
              || FromFirst(items[..last], quota, e)
              || (e == EdgeOf(items[last]) && Rank(items[..last], items[last].asset) < quota)
  {
    var last := |items| - 1;
    var before := items[..last];
    assert forall k :: 0 <= k < last ==> before[k] == items[k] && before[..k] == items[..k];
  }

  /** Everything the records say, with the quotas. */
  ghost predicate Expected(limit: nat, assets: seq<Asset>, alerts: seq<AlertRow>, cves: seq<CveLink>, vulnerabilities: bool, e: Edge) {
    || FromAssets(assets, e)
    || FromFirst(Take(OpenAlerts(assets, alerts), limit * 2), MAX_ALERTS, e)
    || (vulnerabilities && FromFirst(Take(CveLinks(assets, cves), limit * 4), MAX_CVES, e))
  }

  /** The same without the quotas. */
  ghost predicate Supported(assets: seq<Asset>, alerts: seq<AlertRow>, cves: seq<CveLink>, e: Edge) {
    FromAssets(assets, e) || FromItems(OpenAlerts(assets, alerts), e) || FromItems(CveLinks(assets, cves), e)
  }

  /** An edge is never invented, truncated or not. */
  lemma EdgesAreSupported(limit: nat, assets: seq<Asset>, alerts: seq<AlertRow>, cves: seq<CveLink>, vulnerabilities: bool, e: Edge)
    requires e in Build(limit, assets, alerts, cves, vulnerabilities).edgeIds
    ensures Supported(Take(assets, limit), alerts, cves, e)
  {
    var listed := Take(assets, limit);
    var s := AddAssets(EMPTY, limit, listed).state;
    var alertItems, cveItems := Take(OpenAlerts(listed, alerts), limit * 2), Take(CveLinks(listed, cves), limit * 4);
    var t := HangAll(s, limit, MAX_ALERTS, alertItems).state;
    if e in s.edgeIds {
      AddAssetsEdges(limit, listed, e);
    } else if e in t.edgeIds {
      HangAllEdges(s, limit, MAX_ALERTS, alertItems, e);
      var k :| 0 <= k < |alertItems| && e == EdgeOf(alertItems[k]);
      assert e == EdgeOf(OpenAlerts(listed, alerts)[k]);
    } else {
      HangAllEdges(t, limit, MAX_CVES, cveItems, e);
      var k :| 0 <= k < |cveItems| && e == EdgeOf(cveItems[k]);
      assert e == EdgeOf(CveLinks(listed, cves)[k]);
    }
  }

  /** The asset phase alone, when nothing was refused: all nodes of the assets, exactly their edges. */
  lemma AssetPhaseExact(limit: nat, assets: seq<Asset>, e: Edge)
    requires !AddAssets(EMPTY, limit, assets).state.truncated
    ensures e in AddAssets(EMPTY, limit, assets).state.edgeIds <==> FromAssets(assets, e)
    ensures forall x :: IsListed(assets, x) ==> AssetNode(x) in AddAssets(EMPTY, limit, assets).state.nodeIds
  {
    AddAssetsKeeps(limit, assets);
    if e in AddAssets(EMPTY, limit, assets).state.edgeIds { AddAssetsEdges(limit, assets, e); }
    if FromAssets(assets, e) {
      var k, j :| 0 <= k < |assets| && 0 <= j < |Items(assets[k])| && e == EdgeOf(Items(assets[k])[j]);
      AddAssetsComplete(limit, assets, k, Items(assets[k])[j]);
    }
    forall x | IsListed(assets, x)
      ensures AssetNode(x) in AddAssets(EMPTY, limit, assets).state.nodeIds
    {
      var k :| 0 <= k < |assets| && assets[k].id == x;
      AddAssetsPresent(limit, assets, k);
    }
  }

  /** The alert and CVE phases, when nothing was refused. */
  lemma EvidenceExact(s: State, limit: nat, assets: seq<Asset>, alerts: seq<AlertRow>, cves: seq<CveLink>, vulnerabilities: bool, e: Edge)
    requires forall x :: IsListed(assets, x) ==> AssetNode(x) in s.nodeIds
    requires !Evidence(s, limit, assets, alerts, cves, vulnerabilities).truncated
    ensures e in Evidence(s, limit, assets, alerts, cves, vulnerabilities).edgeIds <==>
              || e in s.edgeIds
              || FromFirst(Take(OpenAlerts(assets, alerts), limit * 2), MAX_ALERTS, e)
              || (vulnerabilities && FromFirst(Take(CveLinks(assets, cves), limit * 4), MAX_CVES, e))
  {
    var alertItems, cveItems := Take(OpenAlerts(assets, alerts), limit * 2), Take(CveLinks(assets, cves), limit * 4);
    AlertsConcern(assets, alerts);
    CvesConcern(assets, cves);
    var t := HangAll(s, limit, MAX_ALERTS, alertItems).state;
    HangAllGrows(s, limit, MAX_ALERTS, alertItems);
    HangAllGrows(t, limit, MAX_CVES, cveItems);
    HangAllExact(s, limit, MAX_ALERTS, alertItems, e);
    if vulnerabilities { HangAllExact(t, limit, MAX_CVES, cveItems, e); }
  }

  /** Main result: a graph that does not say it was truncated has exactly the expected edges. */
  lemma UntruncatedGraphIsExact(limit: nat, assets: seq<Asset>, alerts: seq<AlertRow>, cves: seq<CveLink>, vulnerabilities: bool, e: Edge)
    requires !Build(limit, assets, alerts, cves, vulnerabilities).truncated
    ensures e in Build(limit, assets, alerts, cves, vulnerabilities).edgeIds
       <==> Expected(limit, Take(assets, limit), alerts, cves, vulnerabilities, e)
  {
    var listed := Take(assets, limit);
    var s := AddAssets(EMPTY, limit, listed).state;
    if listed == [] || s.nodes == [] {
      NothingListed(limit, listed, alerts, cves);
      AssetPhaseExact(limit, listed, e);
    } else {
      HangAllGrows(s, limit, MAX_ALERTS, Take(OpenAlerts(listed, alerts), limit * 2));
      var t := HangAll(s, limit, MAX_ALERTS, Take(OpenAlerts(listed, alerts), limit * 2)).state;
      HangAllGrows(t, limit, MAX_CVES, Take(CveLinks(listed, cves), limit * 4));
      AssetPhaseExact(limit, listed, e);
      EvidenceExact(s, limit, listed, alerts, cves, vulnerabilities, e);
    }
  }

  /** An empty asset phase that refused nothing had no assets. */
  lemma NothingListed(limit: nat, assets: seq<Asset>, alerts: seq<AlertRow>, cves: seq<CveLink>)
    requires assets == [] || AddAssets(EMPTY, limit, assets).state.nodes == []
    requires !AddAssets(EMPTY, limit, assets).state.truncated
    ensures assets == [] && OpenAlerts(assets, alerts) == [] && CveLinks(assets, cves) == []
  {
    AddAssetsKeeps(limit, assets);
    if assets != [] { AddAssetsPresent(limit, assets, 0); }
    NoAlertsListed(alerts);
    NoCvesListed(cves);
  }

  lemma {:induction false} NoAlertsListed(alerts: seq<AlertRow>)
    ensures OpenAlerts([], alerts) == []
  {
    if alerts != [] { NoAlertsListed(alerts[..|alerts| - 1]); }
  }

  lemma {:induction false} NoCvesListed(cves: seq<CveLink>)
    ensures CveLinks([], cves) == []
  {
    if cves != [] { NoCvesListed(cves[..|cves| - 1]); }
  }

  // ---------- quotas ----------

  /** The edges of one relation leaving one asset. */
  ghost function Leaving(edges: set<Edge>, asset: nat, relation: Relation): set<Edge> {
    set e | e in edges && e.source == AssetNode(asset) && e.relation == relation
  }

  /** One more edge counts only for the asset and relation it leaves by. */
  lemma LeavingWith(edges: set<Edge>, e: Edge, asset: nat, relation: Relation)
    ensures |Leaving(edges + {e}, asset, relation)|
              <= |Leaving(edges, asset, relation)| + (if e.source == AssetNode(asset) && e.relation == relation then 1 else 0)
  {
    var before := Leaving(edges, asset, relation);
    assert Leaving(edges + {e}, asset, relation) == if e.source == AssetNode(asset) && e.relation == relation then before + {e} else before;
  }

  /** Hanging an item adds its edge or none, and none without a count. */
  lemma HangAddsOneEdge(h: Hanging, limit: nat, quota: nat, item: Item)
    ensures var t := Hang(h, limit, quota, item);
            || t.state.edgeIds == h.state.edgeIds
            || (t.state.edgeIds == h.state.edgeIds + {EdgeOf(item)} && CountOf(h.counts, item.asset) < quota
                && t.counts == h.counts[item.asset := CountOf(h.counts, item.asset) + 1])
    ensures var t := Hang(h, limit, quota, item);
            || t.counts == h.counts
            || (CountOf(h.counts, item.asset) < quota && t.counts == h.counts[item.asset := CountOf(h.counts, item.asset) + 1])
  {}

  lemma HangQuota(h: Hanging, limit: nat, quota: nat, item: Item, asset: nat)
    requires |Leaving(h.state.edgeIds, asset, item.relation)| <= CountOf(h.counts, asset) <= quota
    ensures var t := Hang(h, limit, quota, item);
            |Leaving(t.state.edgeIds, asset, item.relation)| <= CountOf(t.counts, asset) <= quota
  {
    HangAddsOneEdge(h, limit, quota, item);
    LeavingWith(h.state.edgeIds, EdgeOf(item), asset, item.relation);
  }

  lemma {:induction false} HangAllQuota(s: State, limit: nat, quota: nat, items: seq<Item>, relation: Relation, asset: nat)
    requires forall k :: 0 <= k < |items| ==> items[k].relation == relation
    requires Leaving(s.edgeIds, asset, relation) == {}
    ensures var h := HangAll(s, limit, quota, items);
            |Leaving(h.state.edgeIds, asset, relation)| <= CountOf(h.counts, asset) <= quota
  {
    if items != [] {
      var last := |items| - 1;
      HangAllQuota(s, limit, quota, items[..last], relation, asset);
      HangQuota(HangAll(s, limit, quota, items[..last]), limit, quota, items[last], asset);
    }
  }

  lemma OtherRelationsStay(s: State, limit: nat, quota: nat, items: seq<Item>, relation: Relation, asset: nat)
    requires forall k :: 0 <= k < |items| ==> items[k].relation != relation
    ensures Leaving(HangAll(s, limit, quota, items).state.edgeIds, asset, relation) == Leaving(s.edgeIds, asset, relation)
  {
    HangAllGrows(s, limit, quota, items);
    forall e | e in Leaving(HangAll(s, limit, quota, items).state.edgeIds, asset, relation)
      ensures e in s.edgeIds
    {
      if e !in s.edgeIds { HangAllEdges(s, limit, quota, items, e); }
    }
  }

  lemma {:induction false} AlertRelations(assets: seq<Asset>, table: seq<AlertRow>)
    ensures forall k :: 0 <= k < |OpenAlerts(assets, table)| ==> OpenAlerts(assets, table)[k].relation == HasAlert
  {
    if table != [] { AlertRelations(assets, table[..|table| - 1]); }
  }

  lemma {:induction false} CveRelations(assets: seq<Asset>, table: seq<CveLink>)
    ensures forall k :: 0 <= k < |CveLinks(assets, table)| ==> CveLinks(assets, table)[k].relation == AffectedBy
  {
    if table != [] { CveRelations(assets, table[..|table| - 1]); }
  }

  /** Main result: no asset shows more than two alerts or four CVEs. */
  lemma QuotasHold(limit: nat, assets: seq<Asset>, alerts: seq<AlertRow>, cves: seq<CveLink>, vulnerabilities: bool, asset: nat)
    ensures var g := Build(limit, assets, alerts, cves, vulnerabilities);
            |Leaving(g.edgeIds, asset, HasAlert)| <= MAX_ALERTS && |Leaving(g.edgeIds, asset, AffectedBy)| <= MAX_CVES
  {
    var listed := Take(assets, limit);
    var s := AddAssets(EMPTY, limit, listed).state;
    var alertItems, cveItems := Take(OpenAlerts(listed, alerts), limit * 2), Take(CveLinks(listed, cves), limit * 4);
    var t := HangAll(s, limit, MAX_ALERTS, alertItems).state;
    AlertRelations(listed, alerts);
    CveRelations(listed, cves);
    AssetPhaseRelations(limit, listed, asset);
    HangAllQuota(s, limit, MAX_ALERTS, alertItems, HasAlert, asset);
    OtherRelationsStay(s, limit, MAX_ALERTS, alertItems, AffectedBy, asset);
    HangAllQuota(t, limit, MAX_CVES, cveItems, AffectedBy, asset);
    OtherRelationsStay(t, limit, MAX_CVES, cveItems, HasAlert, asset);
  }

  lemma AssetPhaseRelations(limit: nat, assets: seq<Asset>, asset: nat)
    ensures var s := AddAssets(EMPTY, limit, assets).state;
            Leaving(s.edgeIds, asset, HasAlert) == {} && Leaving(s.edgeIds, asset, AffectedBy) == {}
  {
    var edges := AddAssets(EMPTY, limit, assets).state.edgeIds;
    forall e | e in edges
      ensures e.relation != HasAlert && e.relation != AffectedBy
    {
      AddAssetsEdges(limit, assets, e);
      AssetEdgeRelations(assets, e);
    }
  }

  lemma AssetEdgeRelations(assets: seq<Asset>, e: Edge)
    requires FromAssets(assets, e)
    ensures e.relation != HasAlert && e.relation != AffectedBy
  {
  }
}
