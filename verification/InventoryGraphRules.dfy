/**
  The bounded inventory graph: assets first, then their alerts, then their CVEs, all sharing
  one node budget.  Nodes are identified by what they stand for; the texts the program builds
  from them (`asset:…`, `segment:…`) are in one-to-one correspondence with these identities.

  This module says what the graph builder does; `InventoryGraphTheorems` says what the
  returned graph is worth and `InventoryGraphBuilder` holds the builder itself.
 */
module InventoryGraphRules {

  datatype NodeId =
    | AssetNode(asset: nat)
    | SegmentNode(segment: string)
    | SourceNode(source: string)
    | DependencyNode(owner: nat, dependency: string)
    | AlertNode(alert: nat)
    | CveNode(cve: string)

  datatype Relation = MemberOf | ReportedBy | Declares | HasAlert | AffectedBy

  datatype Node = Node(id: NodeId, caption: string)

  datatype Edge = Edge(source: NodeId, target: NodeId, relation: Relation)

  datatype Asset = Asset(id: nat, name: string, segment: string, sources: seq<string>, dependencies: seq<string>)

  datatype AlertRow = AlertRow(id: nat, asset: nat, title: string, open: bool)

  datatype CveLink = CveLink(asset: nat, cve: string)

  const MAX_SOURCES := 5
  const MAX_DEPENDENCIES := 3
  const MAX_ALERTS := 2
  const MAX_CVES := 4

  function Take<T>(s: seq<T>, n: nat): seq<T> {
    if |s| <= n then s else s[..n]
  }

  /** Something to hang on an asset: a node and the relation that ties it to the asset. */
  datatype Item = Item(asset: nat, id: NodeId, caption: string, relation: Relation)

  function EdgeOf(item: Item): Edge { Edge(AssetNode(item.asset), item.id, item.relation) }

  // ---------- the items of a record ----------

  function SegmentItem(a: Asset): Item {
    var segment := if a.segment == "" then "Unassigned" else a.segment;
    Item(a.id, SegmentNode(segment), segment, MemberOf)
  }

  function SourceItem(a: Asset, source: string): Item {
    Item(a.id, SourceNode(Take(source, 96)), Take(source, 96), ReportedBy)
  }

  function DependencyItem(a: Asset, dependency: string): Item {
    Item(a.id, DependencyNode(a.id, Take(dependency, 128)), Take(dependency, 128), Declares)
  }

  function SourceItems(a: Asset): seq<Item> {
    var kept := Take(a.sources, MAX_SOURCES);
    seq(|kept|, i requires 0 <= i < |kept| => SourceItem(a, kept[i]))
  }

  function DependencyItems(a: Asset): seq<Item> {
    var kept := Take(a.dependencies, MAX_DEPENDENCIES);
    seq(|kept|, i requires 0 <= i < |kept| => DependencyItem(a, kept[i]))
  }

  function Items(a: Asset): seq<Item> {
    [SegmentItem(a)] + SourceItems(a) + DependencyItems(a)
  }

  function AlertItem(r: AlertRow): Item { Item(r.asset, AlertNode(r.id), r.title, HasAlert) }

  function CveItem(r: CveLink): Item { Item(r.asset, CveNode(r.cve), r.cve, AffectedBy) }

  // ---------- the builder's state and steps ----------

  datatype State = State(
    nodes: seq<Node>,
    edges: seq<Edge>,
    nodeIds: set<NodeId>,
    edgeIds: set<Edge>,
    truncated: bool)

  const EMPTY := State([], [], {}, {}, false)

  predicate Refused(s: State, limit: nat, id: NodeId) {
    id !in s.nodeIds && |s.nodes| >= limit
  }

  function PutNode(s: State, limit: nat, id: NodeId, caption: string): State {
    if id in s.nodeIds then s
    else if |s.nodes| >= limit then s.(truncated := true)
    else s.(nodes := s.nodes + [Node(id, caption)], nodeIds := s.nodeIds + {id})
  }

  function PutEdge(s: State, e: Edge): State {
    if e.source !in s.nodeIds || e.target !in s.nodeIds || e in s.edgeIds then s
    else s.(edges := s.edges + [e], edgeIds := s.edgeIds + {e})
  }

  function Attach(s: State, limit: nat, item: Item): State {
    var t := PutNode(s, limit, item.id, item.caption);
    if Refused(s, limit, item.id) then t else PutEdge(t, EdgeOf(item))
  }

  function AttachAll(s: State, limit: nat, items: seq<Item>): State {
    if items == [] then s
    else Attach(AttachAll(s, limit, items[..|items| - 1]), limit, items[|items| - 1])
  }

  function AddAsset(s: State, limit: nat, a: Asset): State {
    var t := PutNode(s, limit, AssetNode(a.id), a.name);
    if Refused(s, limit, AssetNode(a.id)) then t else AttachAll(t, limit, Items(a))
  }

  datatype Assets = Assets(state: State, stopped: bool)

  /** Assets in query order until one is refused. */
  function AddAssets(s: State, limit: nat, assets: seq<Asset>): Assets {
    if assets == [] then Assets(s, false)
    else
      var last := |assets| - 1;
      var o := AddAssets(s, limit, assets[..last]);
      if o.stopped then o
      else Assets(AddAsset(o.state, limit, assets[last]), Refused(o.state, limit, AssetNode(assets[last].id)))
  }

  datatype Hanging = Hanging(state: State, counts: map<nat, nat>)

  function CountOf(counts: map<nat, nat>, asset: nat): nat {
    if asset in counts then counts[asset] else 0
  }

  /** One alert or CVE: skipped once its asset has used its quota. */
  function Hang(h: Hanging, limit: nat, quota: nat, item: Item): Hanging {
    if CountOf(h.counts, item.asset) >= quota then h
    else
      var t := Attach(h.state, limit, item);
      if Refused(h.state, limit, item.id) then h.(state := t)
      else Hanging(t, h.counts[item.asset := CountOf(h.counts, item.asset) + 1])
  }

  function HangAll(s: State, limit: nat, quota: nat, items: seq<Item>): Hanging {
    if items == [] then Hanging(s, map[])
    else Hang(HangAll(s, limit, quota, items[..|items| - 1]), limit, quota, items[|items| - 1])
  }

  // ---------- the queries ----------

  /** The open alerts of the listed assets, latest first as the table gives them. */
  function OpenAlerts(assets: seq<Asset>, table: seq<AlertRow>): seq<Item> {
    if table == [] then []
    else
      var r := table[|table| - 1];
      OpenAlerts(assets, table[..|table| - 1])
        + (if r.open && IsListed(assets, r.asset) then [AlertItem(r)] else [])
  }

  function CveLinks(assets: seq<Asset>, table: seq<CveLink>): seq<Item> {
    if table == [] then []
    else
      var r := table[|table| - 1];
      CveLinks(assets, table[..|table| - 1]) + (if IsListed(assets, r.asset) then [CveItem(r)] else [])
  }

  predicate IsListed(assets: seq<Asset>, id: nat) {
    exists k :: 0 <= k < |assets| && assets[k].id == id
  }

  /** Alerts of the listed assets, then their CVEs. */
  function Evidence(s: State, limit: nat, assets: seq<Asset>, alertTable: seq<AlertRow>, cveTable: seq<CveLink>, vulnerabilities: bool): State {
    var t := HangAll(s, limit, MAX_ALERTS, Take(OpenAlerts(assets, alertTable), limit * 2)).state;
    if vulnerabilities then HangAll(t, limit, MAX_CVES, Take(CveLinks(assets, cveTable), limit * 4)).state
    else t
  }

  /** The graph of the first `limit` assets. */
  function Build(limit: nat, assetTable: seq<Asset>, alertTable: seq<AlertRow>, cveTable: seq<CveLink>, vulnerabilities: bool): State {
    var assets := Take(assetTable, limit);
    var s := AddAssets(EMPTY, limit, assets).state;
    if assets == [] || s.nodes == [] then s
    else Evidence(s, limit, assets, alertTable, cveTable, vulnerabilities)
  }
}
