/**
  What an inventory graph shows, read off the tables themselves: which asset facts, which
  alert rows, which CVE links and under which captions.
 */
module InventoryGraphContents {
  import opened InventoryGraphRules
  import opened InventoryGraphTheorems

  // ---------- what the tables say ----------

  /** The asset is among the first `limit` rows. */
  ghost predicate Chosen(assetTable: seq<Asset>, limit: nat, id: nat) {
    exists k :: 0 <= k < |assetTable| && k < limit && assetTable[k].id == id
  }

  lemma ChosenIsListed(assetTable: seq<Asset>, limit: nat, id: nat)
    ensures IsListed(Take(assetTable, limit), id) <==> Chosen(assetTable, limit, id)
  {
    var assets := Take(assetTable, limit);
    assert forall k :: 0 <= k < |assets| ==> assets[k] == assetTable[k];
    if k :| 0 <= k < |assetTable| && k < limit && assetTable[k].id == id { assert assets[k].id == id; }
  }

  /** The places before `k` of open alerts of chosen assets: what the query returns ahead of row `k`. */
  ghost function QueriedAlerts(assetTable: seq<Asset>, limit: nat, table: seq<AlertRow>, k: nat): set<nat>
    requires k <= |table|
  {
    set j: nat | j < k && table[j].open && Chosen(assetTable, limit, table[j].asset)
  }

  /** Those of one asset. */
  ghost function AlertsAhead(table: seq<AlertRow>, asset: nat, k: nat): set<nat>
    requires k <= |table|
  {
    set j: nat | j < k && table[j].open && table[j].asset == asset
  }

  ghost predicate AlertQueried(assetTable: seq<Asset>, limit: nat, table: seq<AlertRow>, k: nat)
    requires k < |table|
  {
    && table[k].open && Chosen(assetTable, limit, table[k].asset)
    && |QueriedAlerts(assetTable, limit, table, k)| < limit * 2
  }

  ghost function QueriedLinks(assetTable: seq<Asset>, limit: nat, table: seq<CveLink>, k: nat): set<nat>
    requires k <= |table|
  {
    set j: nat | j < k && Chosen(assetTable, limit, table[j].asset)
  }

  ghost function LinksAhead(table: seq<CveLink>, asset: nat, k: nat): set<nat>
    requires k <= |table|
  {
    set j: nat | j < k && table[j].asset == asset
  }

  ghost predicate LinkQueried(assetTable: seq<Asset>, limit: nat, table: seq<CveLink>, k: nat)
    requires k < |table|
  {
    Chosen(assetTable, limit, table[k].asset) && |QueriedLinks(assetTable, limit, table, k)| < limit * 4
  }

  // ---------- the alert query ----------

  lemma {:induction false} AlertsOfPrefix(assets: seq<Asset>, table: seq<AlertRow>, k: nat)
    requires k <= |table|
    ensures OpenAlerts(assets, table[..k]) <= OpenAlerts(assets, table)
  {
    if k == |table| {
      assert table[..k] == table;
    } else {
      var rest := table[..|table| - 1];
      assert rest[..k] == table[..k];
      AlertsOfPrefix(assets, rest, k);
    }
  }

  lemma AlertsNext(assets: seq<Asset>, table: seq<AlertRow>, k: nat)
    requires k < |table|
    ensures OpenAlerts(assets, table[..k + 1])
         == if table[k].open && IsListed(assets, table[k].asset) then OpenAlerts(assets, table[..k]) + [AlertItem(table[k])]
            else OpenAlerts(assets, table[..k])
  {
    assert table[..k + 1][..k] == table[..k];
  }

  /** A row the query matches is its next item. */
  lemma AlertAt(assets: seq<Asset>, table: seq<AlertRow>, k: nat)
    requires k < |table| && table[k].open && IsListed(assets, table[k].asset)
    ensures var j := |OpenAlerts(assets, table[..k])|;
            j < |OpenAlerts(assets, table)| && OpenAlerts(assets, table)[j] == AlertItem(table[k])
            && OpenAlerts(assets, table)[..j] == OpenAlerts(assets, table[..k])
  {
    AlertsNext(assets, table, k);
    AlertsOfPrefix(assets, table, k + 1);
  }

  /** Every item of the query is a row. */
  lemma {:induction false} AlertFrom(assets: seq<Asset>, table: seq<AlertRow>, j: nat) returns (k: nat)
    requires j < |OpenAlerts(assets, table)|
    ensures k < |table| && table[k].open && IsListed(assets, table[k].asset)
    ensures j == |OpenAlerts(assets, table[..k])| && OpenAlerts(assets, table)[j] == AlertItem(table[k])
  {
    var last := |table| - 1;
    if j < |OpenAlerts(assets, table[..last])| {
      k := AlertFrom(assets, table[..last], j);
      assert table[..last][..k] == table[..k];
    } else {
      k := last;
    }
  }

  lemma QueriedAlertsNext(assetTable: seq<Asset>, limit: nat, table: seq<AlertRow>, k: nat)
    requires k < |table|
    ensures |QueriedAlerts(assetTable, limit, table, k + 1)| == |QueriedAlerts(assetTable, limit, table, k)|
         + (if table[k].open && Chosen(assetTable, limit, table[k].asset) then 1 else 0)
  {
    var before := QueriedAlerts(assetTable, limit, table, k);
    assert QueriedAlerts(assetTable, limit, table, k + 1)
        == if table[k].open && Chosen(assetTable, limit, table[k].asset) then before + {k} else before;
  }

  lemma AlertsAheadNext(table: seq<AlertRow>, asset: nat, k: nat)
    requires k < |table|
    ensures |AlertsAhead(table, asset, k + 1)| == |AlertsAhead(table, asset, k)| + (if table[k].open && table[k].asset == asset then 1 else 0)
  {
    var before := AlertsAhead(table, asset, k);
    assert AlertsAhead(table, asset, k + 1) == if table[k].open && table[k].asset == asset then before + {k} else before;
  }

  lemma AlertsCountedNext(assetTable: seq<Asset>, limit: nat, assets: seq<Asset>, table: seq<AlertRow>, k: nat)
    requires k < |table| && (IsListed(assets, table[k].asset) <==> Chosen(assetTable, limit, table[k].asset))
    ensures |OpenAlerts(assets, table[..k + 1])| - |OpenAlerts(assets, table[..k])|
         == |QueriedAlerts(assetTable, limit, table, k + 1)| - |QueriedAlerts(assetTable, limit, table, k)|
  {
    AlertsNext(assets, table, k);
    QueriedAlertsNext(assetTable, limit, table, k);
  }

  lemma {:induction false} AlertsCounted(assetTable: seq<Asset>, limit: nat, assets: seq<Asset>, table: seq<AlertRow>, k: nat)
    requires k <= |table| && assets == Take(assetTable, limit)
    ensures |OpenAlerts(assets, table[..k])| == |QueriedAlerts(assetTable, limit, table, k)|
  {
    if k == 0 {
      assert QueriedAlerts(assetTable, limit, table, 0) == {};
    } else {
      AlertsCounted(assetTable, limit, assets, table, k - 1);
      ChosenIsListed(assetTable, limit, table[k - 1].asset);
      AlertsCountedNext(assetTable, limit, assets, table, k - 1);
    }
  }

  lemma AlertsRankedNext(assets: seq<Asset>, table: seq<AlertRow>, k: nat, asset: nat)
    requires k < |table| && IsListed(assets, asset)
    ensures Rank(OpenAlerts(assets, table[..k + 1]), asset) - Rank(OpenAlerts(assets, table[..k]), asset)
         == |AlertsAhead(table, asset, k + 1)| - |AlertsAhead(table, asset, k)|
  {
    AlertsNext(assets, table, k);
    AlertsAheadNext(table, asset, k);
    RankNext(OpenAlerts(assets, table[..k]), AlertItem(table[k]), asset);
  }

  lemma {:induction false} AlertsRanked(assets: seq<Asset>, table: seq<AlertRow>, k: nat, asset: nat)
    requires k <= |table| && IsListed(assets, asset)
    ensures Rank(OpenAlerts(assets, table[..k]), asset) == |AlertsAhead(table, asset, k)|
  {
    if k == 0 {
      assert AlertsAhead(table, asset, 0) == {};
    } else {
      AlertsRanked(assets, table, k - 1, asset);
      AlertsRankedNext(assets, table, k - 1, asset);
    }
  }

  lemma RankNext(items: seq<Item>, item: Item, asset: nat)
    ensures Rank(items + [item], asset) == Rank(items, asset) + (if item.asset == asset then 1 else 0)
  {
    assert (items + [item])[..|items|] == items;
  }

  // ---------- the CVE query ----------

  lemma {:induction false} LinksOfPrefix(assets: seq<Asset>, table: seq<CveLink>, k: nat)
    requires k <= |table|
    ensures CveLinks(assets, table[..k]) <= CveLinks(assets, table)
  {
    if k == |table| {
      assert table[..k] == table;
    } else {
      var rest := table[..|table| - 1];
      assert rest[..k] == table[..k];
      LinksOfPrefix(assets, rest, k);
    }
  }

  lemma LinksNext(assets: seq<Asset>, table: seq<CveLink>, k: nat)
    requires k < |table|
    ensures CveLinks(assets, table[..k + 1])
         == if IsListed(assets, table[k].asset) then CveLinks(assets, table[..k]) + [CveItem(table[k])] else CveLinks(assets, table[..k])
  {
    assert table[..k + 1][..k] == table[..k];
  }

  lemma LinkAt(assets: seq<Asset>, table: seq<CveLink>, k: nat)
    requires k < |table| && IsListed(assets, table[k].asset)
    ensures var j := |CveLinks(assets, table[..k])|;
            j < |CveLinks(assets, table)| && CveLinks(assets, table)[j] == CveItem(table[k])
            && CveLinks(assets, table)[..j] == CveLinks(assets, table[..k])
  {
    LinksNext(assets, table, k);
    LinksOfPrefix(assets, table, k + 1);
  }

  lemma {:induction false} LinkFrom(assets: seq<Asset>, table: seq<CveLink>, j: nat) returns (k: nat)
    requires j < |CveLinks(assets, table)|
    ensures k < |table| && IsListed(assets, table[k].asset)
    ensures j == |CveLinks(assets, table[..k])| && CveLinks(assets, table)[j] == CveItem(table[k])
  {
    var last := |table| - 1;
    if j < |CveLinks(assets, table[..last])| {
      k := LinkFrom(assets, table[..last], j);
      assert table[..last][..k] == table[..k];
    } else {
      k := last;
    }
  }

  lemma QueriedLinksNext(assetTable: seq<Asset>, limit: nat, table: seq<CveLink>, k: nat)
    requires k < |table|
    ensures |QueriedLinks(assetTable, limit, table, k + 1)| == |QueriedLinks(assetTable, limit, table, k)|
         + (if Chosen(assetTable, limit, table[k].asset) then 1 else 0)
  {
    var before := QueriedLinks(assetTable, limit, table, k);
    assert QueriedLinks(assetTable, limit, table, k + 1) == if Chosen(assetTable, limit, table[k].asset) then before + {k} else before;
  }

  lemma LinksAheadNext(table: seq<CveLink>, asset: nat, k: nat)
    requires k < |table|
    ensures |LinksAhead(table, asset, k + 1)| == |LinksAhead(table, asset, k)| + (if table[k].asset == asset then 1 else 0)
  {
    var before := LinksAhead(table, asset, k);
    assert LinksAhead(table, asset, k + 1) == if table[k].asset == asset then before + {k} else before;
  }

  lemma LinksCountedNext(assetTable: seq<Asset>, limit: nat, assets: seq<Asset>, table: seq<CveLink>, k: nat)
    requires k < |table| && (IsListed(assets, table[k].asset) <==> Chosen(assetTable, limit, table[k].asset))
    ensures |CveLinks(assets, table[..k + 1])| - |CveLinks(assets, table[..k])|
         == |QueriedLinks(assetTable, limit, table, k + 1)| - |QueriedLinks(assetTable, limit, table, k)|
  {
    LinksNext(assets, table, k);
    QueriedLinksNext(assetTable, limit, table, k);
  }

  lemma {:induction false} LinksCounted(assetTable: seq<Asset>, limit: nat, assets: seq<Asset>, table: seq<CveLink>, k: nat)
    requires k <= |table| && assets == Take(assetTable, limit)
    ensures |CveLinks(assets, table[..k])| == |QueriedLinks(assetTable, limit, table, k)|
  {
    if k == 0 {
      assert QueriedLinks(assetTable, limit, table, 0) == {};
    } else {
      LinksCounted(assetTable, limit, assets, table, k - 1);
      ChosenIsListed(assetTable, limit, table[k - 1].asset);
      LinksCountedNext(assetTable, limit, assets, table, k - 1);
    }
  }

  lemma LinksRankedNext(assets: seq<Asset>, table: seq<CveLink>, k: nat, asset: nat)
    requires k < |table| && IsListed(assets, asset)
    ensures Rank(CveLinks(assets, table[..k + 1]), asset) - Rank(CveLinks(assets, table[..k]), asset)
         == |LinksAhead(table, asset, k + 1)| - |LinksAhead(table, asset, k)|
  {
    LinksNext(assets, table, k);
    LinksAheadNext(table, asset, k);
    RankNext(CveLinks(assets, table[..k]), CveItem(table[k]), asset);
  }

  lemma {:induction false} LinksRanked(assets: seq<Asset>, table: seq<CveLink>, k: nat, asset: nat)
    requires k <= |table| && IsListed(assets, asset)
    ensures Rank(CveLinks(assets, table[..k]), asset) == |LinksAhead(table, asset, k)|
  {
    if k == 0 {
      assert LinksAhead(table, asset, 0) == {};
    } else {
      LinksRanked(assets, table, k - 1, asset);
      LinksRankedNext(assets, table, k - 1, asset);
    }
  }

  // ---------- edges to alerts ----------

  ghost predicate ShowsAlert(r: AlertRow, e: Edge) {
    e == Edge(AssetNode(r.asset), AlertNode(r.id), HasAlert)
  }

  /** An edge the alert query can bring. */
  ghost predicate FromQueriedAlert(assetTable: seq<Asset>, limit: nat, table: seq<AlertRow>, e: Edge) {
    exists k: nat :: k < |table| && AlertQueried(assetTable, limit, table, k) && ShowsAlert(table[k], e)
  }

  /** The same within the quota of the asset. */
  ghost predicate FromFirstAlerts(assetTable: seq<Asset>, limit: nat, table: seq<AlertRow>, e: Edge) {
    exists k: nat :: k < |table| && AlertQueried(assetTable, limit, table, k) && ShowsAlert(table[k], e)
                  && |AlertsAhead(table, table[k].asset, k)| < 2
  }

  /** Item `j` of the query and row `k` of the table, seen from either side. */
  lemma AlertPlace(assetTable: seq<Asset>, limit: nat, assets: seq<Asset>, table: seq<AlertRow>, k: nat, items: seq<Item>)
    requires assets == Take(assetTable, limit) && items == Take(OpenAlerts(assets, table), limit * 2)
    requires k < |table| && table[k].open && IsListed(assets, table[k].asset)
    ensures var j := |OpenAlerts(assets, table[..k])|;
            && (AlertQueried(assetTable, limit, table, k) <==> j < |items|)
            && (j < |items| ==> items[j] == AlertItem(table[k]) && Rank(items[..j], table[k].asset) == |AlertsAhead(table, table[k].asset, k)|)
  {
    var all, j := OpenAlerts(assets, table), |OpenAlerts(assets, table[..k])|;
    ChosenIsListed(assetTable, limit, table[k].asset);
    AlertsCounted(assetTable, limit, assets, table, k);
    AlertsRanked(assets, table, k, table[k].asset);
    AlertAt(assets, table, k);
    if j < |items| { assert items[..j] == all[..j]; }
  }

  lemma AlertItemIsRow(assetTable: seq<Asset>, limit: nat, assets: seq<Asset>, table: seq<AlertRow>, items: seq<Item>, j: nat) returns (k: nat)
    requires assets == Take(assetTable, limit) && items == Take(OpenAlerts(assets, table), limit * 2)
    requires j < |items|
    ensures k < |table| && AlertQueried(assetTable, limit, table, k) && ShowsAlert(table[k], EdgeOf(items[j]))
    ensures Rank(items[..j], items[j].asset) == |AlertsAhead(table, table[k].asset, k)|
  {
    k := AlertFrom(assets, table, j);
    AlertPlace(assetTable, limit, assets, table, k, items);
  }

  lemma AlertItemsAreRows(assetTable: seq<Asset>, limit: nat, table: seq<AlertRow>, items: seq<Item>, e: Edge)
    requires items == Take(OpenAlerts(Take(assetTable, limit), table), limit * 2)
    ensures FromItems(items, e) ==> FromQueriedAlert(assetTable, limit, table, e)
    ensures FromFirst(items, 2, e) ==> FromFirstAlerts(assetTable, limit, table, e)
  {
    if FromItems(items, e) {
      var j: nat :| j < |items| && e == EdgeOf(items[j]);
      var _ := AlertItemIsRow(assetTable, limit, Take(assetTable, limit), table, items, j);
    }
    if FromFirst(items, 2, e) {
      var j: nat :| j < |items| && e == EdgeOf(items[j]) && Rank(items[..j], items[j].asset) < 2;
      var _ := AlertItemIsRow(assetTable, limit, Take(assetTable, limit), table, items, j);
    }
  }

  lemma FirstAlertRowsAreItems(assetTable: seq<Asset>, limit: nat, table: seq<AlertRow>, items: seq<Item>, e: Edge)
    requires items == Take(OpenAlerts(Take(assetTable, limit), table), limit * 2)
    requires FromFirstAlerts(assetTable, limit, table, e)
    ensures FromFirst(items, 2, e)
  {
    var k: nat :| k < |table| && AlertQueried(assetTable, limit, table, k) && ShowsAlert(table[k], e)
                  && |AlertsAhead(table, table[k].asset, k)| < 2;
    ChosenIsListed(assetTable, limit, table[k].asset);
    AlertPlace(assetTable, limit, Take(assetTable, limit), table, k, items);
    assert e == EdgeOf(items[|OpenAlerts(Take(assetTable, limit), table[..k])|]);
  }

  // ---------- edges to CVEs ----------

  ghost predicate ShowsLink(r: CveLink, e: Edge) {
    e == Edge(AssetNode(r.asset), CveNode(r.cve), AffectedBy)
  }

  ghost predicate FromQueriedLink(assetTable: seq<Asset>, limit: nat, table: seq<CveLink>, e: Edge) {
    exists k: nat :: k < |table| && LinkQueried(assetTable, limit, table, k) && ShowsLink(table[k], e)
  }

  ghost predicate FromFirstLinks(assetTable: seq<Asset>, limit: nat, table: seq<CveLink>, e: Edge) {
    exists k: nat :: k < |table| && LinkQueried(assetTable, limit, table, k) && ShowsLink(table[k], e)
                  && |LinksAhead(table, table[k].asset, k)| < 4
  }

  /** Item `j` of the query and row `k` of the table, seen from either side. */
  lemma LinkPlace(assetTable: seq<Asset>, limit: nat, assets: seq<Asset>, table: seq<CveLink>, k: nat, items: seq<Item>)
    requires assets == Take(assetTable, limit) && items == Take(CveLinks(assets, table), limit * 4)
    requires k < |table| && IsListed(assets, table[k].asset)
    ensures var j := |CveLinks(assets, table[..k])|;
            && (LinkQueried(assetTable, limit, table, k) <==> j < |items|)
            && (j < |items| ==> items[j] == CveItem(table[k]) && Rank(items[..j], table[k].asset) == |LinksAhead(table, table[k].asset, k)|)
  {
    var all, j := CveLinks(assets, table), |CveLinks(assets, table[..k])|;
    ChosenIsListed(assetTable, limit, table[k].asset);
    LinksCounted(assetTable, limit, assets, table, k);
    LinksRanked(assets, table, k, table[k].asset);
    LinkAt(assets, table, k);
    if j < |items| { assert items[..j] == all[..j]; }
  }

  lemma LinkItemIsRow(assetTable: seq<Asset>, limit: nat, assets: seq<Asset>, table: seq<CveLink>, items: seq<Item>, j: nat) returns (k: nat)
    requires assets == Take(assetTable, limit) && items == Take(CveLinks(assets, table), limit * 4)
    requires j < |items|
    ensures k < |table| && LinkQueried(assetTable, limit, table, k) && ShowsLink(table[k], EdgeOf(items[j]))
    ensures Rank(items[..j], items[j].asset) == |LinksAhead(table, table[k].asset, k)|
  {
    k := LinkFrom(assets, table, j);
    LinkPlace(assetTable, limit, assets, table, k, items);
  }

  lemma LinkItemsAreRows(assetTable: seq<Asset>, limit: nat, table: seq<CveLink>, items: seq<Item>, e: Edge)
    requires items == Take(CveLinks(Take(assetTable, limit), table), limit * 4)
    ensures FromItems(items, e) ==> FromQueriedLink(assetTable, limit, table, e)
    ensures FromFirst(items, 4, e) ==> FromFirstLinks(assetTable, limit, table, e)
  {
    if FromItems(items, e) {
      var j: nat :| j < |items| && e == EdgeOf(items[j]);
      var _ := LinkItemIsRow(assetTable, limit, Take(assetTable, limit), table, items, j);
    }
    if FromFirst(items, 4, e) {
      var j: nat :| j < |items| && e == EdgeOf(items[j]) && Rank(items[..j], items[j].asset) < 4;
      var _ := LinkItemIsRow(assetTable, limit, Take(assetTable, limit), table, items, j);
    }
  }

  lemma FirstLinkRowsAreItems(assetTable: seq<Asset>, limit: nat, table: seq<CveLink>, items: seq<Item>, e: Edge)
    requires items == Take(CveLinks(Take(assetTable, limit), table), limit * 4)
    requires FromFirstLinks(assetTable, limit, table, e)
    ensures FromFirst(items, 4, e)
  {
    var k: nat :| k < |table| && LinkQueried(assetTable, limit, table, k) && ShowsLink(table[k], e)
                  && |LinksAhead(table, table[k].asset, k)| < 4;
    ChosenIsListed(assetTable, limit, table[k].asset);
    LinkPlace(assetTable, limit, Take(assetTable, limit), table, k, items);
    assert e == EdgeOf(items[|CveLinks(Take(assetTable, limit), table[..k])|]);
  }

  // ---------- edges of the assets themselves ----------

  /** At most the first `n` characters. */
  ghost predicate Cut(text: string, n: nat, shown: string) {
    shown <= text && |shown| == if |text| < n then |text| else n
  }

  /** The segment of an asset, its first five sources and its first three dependencies. */
  ghost predicate ShowsAsset(a: Asset, e: Edge) {
    && e.source == AssetNode(a.id)
    && match e.target {
         case SegmentNode(s) => e.relation == MemberOf && s == (if a.segment == "" then "Unassigned" else a.segment)
         case SourceNode(s) => e.relation == ReportedBy && exists j :: 0 <= j < |a.sources| && j < 5 && Cut(a.sources[j], 96, s)
         case DependencyNode(owner, d) =>
           e.relation == Declares && owner == a.id && exists j :: 0 <= j < |a.dependencies| && j < 3 && Cut(a.dependencies[j], 128, d)
         case _ => false
       }
  }

  lemma TakeCuts(text: string, n: nat, shown: string)
    ensures Cut(text, n, shown) <==> shown == Take(text, n)
  {}

  lemma ItemShows(a: Asset, item: Item)
    requires item in Items(a)
    ensures ShowsAsset(a, EdgeOf(item))
  {
    if item in SourceItems(a) {
      var j :| 0 <= j < |SourceItems(a)| && SourceItems(a)[j] == item;
      assert item == SourceItem(a, a.sources[j]);
      assert Cut(a.sources[j], 96, Take(a.sources[j], 96));
    } else if item in DependencyItems(a) {
      var j :| 0 <= j < |DependencyItems(a)| && DependencyItems(a)[j] == item;
      assert item == DependencyItem(a, a.dependencies[j]);
      assert Cut(a.dependencies[j], 128, Take(a.dependencies[j], 128));
    } else {
      assert item == SegmentItem(a);
    }
  }

  lemma ShownIsItem(a: Asset, e: Edge) returns (item: Item)
    requires ShowsAsset(a, e)
    ensures item in Items(a) && EdgeOf(item) == e
  {
    match e.target
    case SegmentNode(s) =>
      item := SegmentItem(a);
    case SourceNode(s) =>
      var j :| 0 <= j < |a.sources| && j < 5 && Cut(a.sources[j], 96, s);
      TakeCuts(a.sources[j], 96, s);
      item := SourceItem(a, a.sources[j]);
      assert SourceItems(a)[j] == item;
    case DependencyNode(owner, d) =>
      var j :| 0 <= j < |a.dependencies| && j < 3 && Cut(a.dependencies[j], 128, d);
      TakeCuts(a.dependencies[j], 128, d);
      item := DependencyItem(a, a.dependencies[j]);
      assert DependencyItems(a)[j] == item;
  }

  ghost predicate FromChosenAsset(assetTable: seq<Asset>, limit: nat, e: Edge) {
    exists k: nat :: k < |assetTable| && k < limit && ShowsAsset(assetTable[k], e)
  }

  lemma AssetEdgesAreShown(assetTable: seq<Asset>, limit: nat, e: Edge)
    ensures FromAssets(Take(assetTable, limit), e) <==> FromChosenAsset(assetTable, limit, e)
  {
    var assets := Take(assetTable, limit);
    assert forall k :: 0 <= k < |assets| ==> assets[k] == assetTable[k];
    if FromAssets(assets, e) {
      var k, j :| 0 <= k < |assets| && 0 <= j < |Items(assets[k])| && e == EdgeOf(Items(assets[k])[j]);
      ItemShows(assets[k], Items(assets[k])[j]);
      assert ShowsAsset(assetTable[k], e);
    }
    if FromChosenAsset(assetTable, limit, e) {
      var k: nat :| k < |assetTable| && k < limit && ShowsAsset(assetTable[k], e);
      var item := ShownIsItem(assets[k], e);
      var j :| 0 <= j < |Items(assets[k])| && Items(assets[k])[j] == item;
      assert e == EdgeOf(Items(assets[k])[j]);
    }
  }

  // ---------- main results ----------

  /** An edge in any graph, truncated or not, stands for a row of the tables. */
  lemma EveryEdgeHasItsRow(limit: nat, assetTable: seq<Asset>, alerts: seq<AlertRow>, cves: seq<CveLink>, vulnerabilities: bool, e: Edge)
    requires e in Build(limit, assetTable, alerts, cves, vulnerabilities).edgeIds
    ensures || FromChosenAsset(assetTable, limit, e)
            || FromQueriedAlert(assetTable, limit, alerts, e)
            || (vulnerabilities && FromQueriedLink(assetTable, limit, cves, e))
  {
    var listed := Take(assetTable, limit);
    var s := AddAssets(EMPTY, limit, listed).state;
    var alertItems, cveItems := Take(OpenAlerts(listed, alerts), limit * 2), Take(CveLinks(listed, cves), limit * 4);
    var t := HangAll(s, limit, MAX_ALERTS, alertItems).state;
    AssetEdgesAreShown(assetTable, limit, e);
    AlertItemsAreRows(assetTable, limit, alerts, alertItems, e);
    LinkItemsAreRows(assetTable, limit, cves, cveItems, e);
    if e in s.edgeIds {
      AddAssetsEdges(limit, listed, e);
    } else if e in t.edgeIds {
      HangAllEdges(s, limit, MAX_ALERTS, alertItems, e);
    } else {
      HangAllEdges(t, limit, MAX_CVES, cveItems, e);
    }
  }

  /**
    A graph that is not truncated shows exactly the facts of the chosen assets, the queried open
    alerts with fewer than two ahead of them on their asset, and the queried CVE links with
    fewer than four.
   */
  lemma UntruncatedGraphShowsTheTables(limit: nat, assetTable: seq<Asset>, alerts: seq<AlertRow>, cves: seq<CveLink>, vulnerabilities: bool, e: Edge)
    requires !Build(limit, assetTable, alerts, cves, vulnerabilities).truncated
    ensures e in Build(limit, assetTable, alerts, cves, vulnerabilities).edgeIds <==>
              || FromChosenAsset(assetTable, limit, e)
              || FromFirstAlerts(assetTable, limit, alerts, e)
              || (vulnerabilities && FromFirstLinks(assetTable, limit, cves, e))
  {
    var listed := Take(assetTable, limit);
    var alertItems, cveItems := Take(OpenAlerts(listed, alerts), limit * 2), Take(CveLinks(listed, cves), limit * 4);
    UntruncatedGraphIsExact(limit, assetTable, alerts, cves, vulnerabilities, e);
    AssetEdgesAreShown(assetTable, limit, e);
    AlertItemsAreRows(assetTable, limit, alerts, alertItems, e);
    LinkItemsAreRows(assetTable, limit, cves, cveItems, e);
    if FromFirstAlerts(assetTable, limit, alerts, e) { FirstAlertRowsAreItems(assetTable, limit, alerts, alertItems, e); }
    if FromFirstLinks(assetTable, limit, cves, e) { FirstLinkRowsAreItems(assetTable, limit, cves, cveItems, e); }
  }

  // ---------- nodes and their captions ----------

  ghost predicate NodeOf(items: seq<Item>, n: Node) {
    exists k :: 0 <= k < |items| && n == Node(items[k].id, items[k].caption)
  }

  lemma NodeOfMore(items: seq<Item>, n: Node)
    requires items != []
    ensures NodeOf(items[..|items| - 1], n) ==> NodeOf(items, n)
    ensures n == Node(items[|items| - 1].id, items[|items| - 1].caption) ==> NodeOf(items, n)
  {
    var rest := items[..|items| - 1];
    if k :| 0 <= k < |rest| && n == Node(rest[k].id, rest[k].caption) { assert n == Node(items[k].id, items[k].caption); }
  }

  lemma {:induction false} AttachAllNodes(s: State, limit: nat, items: seq<Item>, n: Node)
    requires n in AttachAll(s, limit, items).nodes && n !in s.nodes
    ensures NodeOf(items, n)
  {
    var before := items[..|items| - 1];
    NodeOfMore(items, n);
    if n in AttachAll(s, limit, before).nodes { AttachAllNodes(s, limit, before, n); }
  }

  lemma {:induction false} HangAllNodes(s: State, limit: nat, quota: nat, items: seq<Item>, n: Node)
    requires n in HangAll(s, limit, quota, items).state.nodes && n !in s.nodes
    ensures NodeOf(items, n)
  {
    var before := items[..|items| - 1];
    NodeOfMore(items, n);
    if n in HangAll(s, limit, quota, before).state.nodes { HangAllNodes(s, limit, quota, before, n); }
  }

  /** A node of the asset phase: an asset under its name, or one of its facts under its own text. */
  ghost predicate NodeOfAsset(a: Asset, n: Node) {
    match n.id
    case AssetNode(x) => x == a.id && n.caption == a.name
    case SegmentNode(text) => n.caption == text
    case SourceNode(text) => n.caption == text
    case DependencyNode(owner, text) => owner == a.id && n.caption == text
    case _ => false
  }

  lemma AddAssetNodes(s: State, limit: nat, a: Asset, n: Node)
    requires n in AddAsset(s, limit, a).nodes && n !in s.nodes
    ensures NodeOfAsset(a, n)
  {
    var t := PutNode(s, limit, AssetNode(a.id), a.name);
    if n !in t.nodes { AttachAllNodes(t, limit, Items(a), n); }
  }

  ghost predicate NodeOfAssets(assets: seq<Asset>, n: Node) {
    exists k :: 0 <= k < |assets| && NodeOfAsset(assets[k], n)
  }

  lemma {:induction false} AddAssetsNodes(limit: nat, assets: seq<Asset>, n: Node)
    requires n in AddAssets(EMPTY, limit, assets).state.nodes
    ensures NodeOfAssets(assets, n)
  {
    var last := |assets| - 1;
    var before := assets[..last];
    var s := AddAssets(EMPTY, limit, before).state;
    if n in s.nodes {
      AddAssetsNodes(limit, before, n);
      var k :| 0 <= k < last && NodeOfAsset(before[k], n);
      assert NodeOfAsset(assets[k], n);
    } else {
      AddAssetNodes(s, limit, assets[last], n);
    }
  }

  /** What a node shows: the name of a chosen asset, the title of a queried open alert, or its own text. */
  ghost predicate Captioned(assetTable: seq<Asset>, limit: nat, alerts: seq<AlertRow>, n: Node) {
    match n.id
    case AssetNode(x) => exists k: nat :: k < |assetTable| && k < limit && assetTable[k].id == x && assetTable[k].name == n.caption
    case AlertNode(x) => exists k: nat :: k < |alerts| && AlertQueried(assetTable, limit, alerts, k) && alerts[k].id == x && alerts[k].title == n.caption
    case SegmentNode(text) => n.caption == text
    case SourceNode(text) => n.caption == text
    case DependencyNode(_, text) => n.caption == text
    case CveNode(text) => n.caption == text
  }

  lemma AssetNodesAreCaptioned(assetTable: seq<Asset>, limit: nat, alerts: seq<AlertRow>, n: Node)
    requires NodeOfAssets(Take(assetTable, limit), n)
    ensures Captioned(assetTable, limit, alerts, n)
  {
    var assets := Take(assetTable, limit);
    var k: nat :| k < |assets| && NodeOfAsset(assets[k], n);
    assert assets[k] == assetTable[k];
  }

  lemma AlertNodesAreCaptioned(assetTable: seq<Asset>, limit: nat, alerts: seq<AlertRow>, n: Node)
    requires NodeOf(Take(OpenAlerts(Take(assetTable, limit), alerts), limit * 2), n)
    ensures Captioned(assetTable, limit, alerts, n)
  {
    var assets := Take(assetTable, limit);
    var items := Take(OpenAlerts(assets, alerts), limit * 2);
    var j: nat :| j < |items| && n == Node(items[j].id, items[j].caption);
    var k := AlertFrom(assets, alerts, j);
    AlertPlace(assetTable, limit, assets, alerts, k, items);
  }

  lemma LinkNodesAreCaptioned(assetTable: seq<Asset>, limit: nat, alerts: seq<AlertRow>, cves: seq<CveLink>, n: Node)
    requires NodeOf(Take(CveLinks(Take(assetTable, limit), cves), limit * 4), n)
    ensures Captioned(assetTable, limit, alerts, n)
  {
    var assets := Take(assetTable, limit);
    var items := Take(CveLinks(assets, cves), limit * 4);
    var j: nat :| j < |items| && n == Node(items[j].id, items[j].caption);
    var k := LinkFrom(assets, cves, j);
  }

  /** Every node of any graph shows what its row says. */
  lemma EveryNodeIsCaptioned(limit: nat, assetTable: seq<Asset>, alerts: seq<AlertRow>, cves: seq<CveLink>, vulnerabilities: bool, n: Node)
    requires n in Build(limit, assetTable, alerts, cves, vulnerabilities).nodes
    ensures Captioned(assetTable, limit, alerts, n)
  {
    var listed := Take(assetTable, limit);
    var s := AddAssets(EMPTY, limit, listed).state;
    var alertItems, cveItems := Take(OpenAlerts(listed, alerts), limit * 2), Take(CveLinks(listed, cves), limit * 4);
    var t := HangAll(s, limit, MAX_ALERTS, alertItems).state;
    if n in s.nodes {
      AddAssetsNodes(limit, listed, n);
      AssetNodesAreCaptioned(assetTable, limit, alerts, n);
    } else if n in t.nodes {
      HangAllNodes(s, limit, MAX_ALERTS, alertItems, n);
      AlertNodesAreCaptioned(assetTable, limit, alerts, n);
    } else {
      HangAllNodes(t, limit, MAX_CVES, cveItems, n);
      LinkNodesAreCaptioned(assetTable, limit, alerts, cves, n);
    }
  }

  /** An untruncated graph has a node for every chosen asset. */
  lemma UntruncatedGraphHasTheAssets(limit: nat, assetTable: seq<Asset>, alerts: seq<AlertRow>, cves: seq<CveLink>, vulnerabilities: bool, x: nat)
    requires !Build(limit, assetTable, alerts, cves, vulnerabilities).truncated
    ensures AssetNode(x) in Build(limit, assetTable, alerts, cves, vulnerabilities).nodeIds <==> Chosen(assetTable, limit, x)
  {
    var listed := Take(assetTable, limit);
    var g := Build(limit, assetTable, alerts, cves, vulnerabilities);
    ChosenIsListed(assetTable, limit, x);
    GraphHasNoOrphans(limit, assetTable, alerts, cves, vulnerabilities);
    if AssetNode(x) in g.nodeIds {
      var n :| n in g.nodes && n.id == AssetNode(x);
      EveryNodeIsCaptioned(limit, assetTable, alerts, cves, vulnerabilities, n);
    } else if IsListed(listed, x) {
      var s := AddAssets(EMPTY, limit, listed).state;
      var t := HangAll(s, limit, MAX_ALERTS, Take(OpenAlerts(listed, alerts), limit * 2)).state;
      HangAllGrows(s, limit, MAX_ALERTS, Take(OpenAlerts(listed, alerts), limit * 2));
      HangAllGrows(t, limit, MAX_CVES, Take(CveLinks(listed, cves), limit * 4));
      AssetPhaseExact(limit, listed, Edge(AssetNode(x), AssetNode(x), HasAlert));
    }
  }

  // ---------- what a full graph still shows ----------

  ghost predicate DistinctEdges(items: seq<Item>, relation: Relation) {
    && (forall k :: 0 <= k < |items| ==> items[k].relation == relation)
    && (forall j, k :: 0 <= j < k < |items| ==> EdgeOf(items[j]) != EdgeOf(items[k]))
  }

  /** One item of several on an asset that is in the graph: its edge is new and its count goes along. */
  lemma HangCountsEdge(h: Hanging, limit: nat, quota: nat, item: Item, asset: nat)
    requires AssetNode(asset) in h.state.nodeIds && EdgeOf(item) !in h.state.edgeIds
    requires |Leaving(h.state.edgeIds, asset, item.relation)| == CountOf(h.counts, asset)
    ensures var t := Hang(h, limit, quota, item);
            |Leaving(t.state.edgeIds, asset, item.relation)| == CountOf(t.counts, asset)
  {
    var e := EdgeOf(item);
    var before := Leaving(h.state.edgeIds, asset, item.relation);
    assert Leaving(h.state.edgeIds + {e}, asset, item.relation) == if item.asset == asset then before + {e} else before;
  }

  lemma {:induction false} CountsAreEdges(s: State, limit: nat, quota: nat, items: seq<Item>, relation: Relation, asset: nat)
    requires DistinctEdges(items, relation) && AssetNode(asset) in s.nodeIds
    requires forall e :: e in s.edgeIds ==> e.relation != relation
    ensures var h := HangAll(s, limit, quota, items);
            |Leaving(h.state.edgeIds, asset, relation)| == CountOf(h.counts, asset)
  {
    if items == [] {
      assert Leaving(s.edgeIds, asset, relation) == {};
    } else {
      var last := |items| - 1;
      var before := items[..last];
      CountsAreEdges(s, limit, quota, before, relation, asset);
      HangAllGrows(s, limit, quota, before);
      NotYetHung(s, limit, quota, items);
      HangCountsEdge(HangAll(s, limit, quota, before), limit, quota, items[last], asset);
    }
  }

  lemma NotYetHung(s: State, limit: nat, quota: nat, items: seq<Item>)
    requires items != [] && DistinctEdges(items, items[|items| - 1].relation)
    requires forall e :: e in s.edgeIds ==> e.relation != items[|items| - 1].relation
    ensures EdgeOf(items[|items| - 1]) !in HangAll(s, limit, quota, items[..|items| - 1]).state.edgeIds
  {
    var last := |items| - 1;
    var e := EdgeOf(items[last]);
    if e in HangAll(s, limit, quota, items[..last]).state.edgeIds {
      HangAllEdges(s, limit, quota, items[..last], e);
    }
  }

  /** An item whose turn came is shown, or its asset had its quota, or the graph was full without its node. */
  ghost predicate Dealt(h: Hanging, limit: nat, quota: nat, item: Item) {
    || EdgeOf(item) in h.state.edgeIds
    || CountOf(h.counts, item.asset) >= quota
    || (|h.state.nodes| >= limit && item.id !in h.state.nodeIds)
  }

  lemma DealtWithNow(h: Hanging, limit: nat, quota: nat, item: Item)
    requires AssetNode(item.asset) in h.state.nodeIds
    ensures Dealt(Hang(h, limit, quota, item), limit, quota, item)
  {}

  lemma DealtWithStays(h: Hanging, limit: nat, quota: nat, item: Item, next: Item)
    requires Dealt(h, limit, quota, item)
    ensures Dealt(Hang(h, limit, quota, next), limit, quota, item)
  {}

  lemma {:induction false} AllDealtWith(s: State, limit: nat, quota: nat, items: seq<Item>, k: nat)
    requires k < |items| && AssetNode(items[k].asset) in s.nodeIds
    ensures Dealt(HangAll(s, limit, quota, items), limit, quota, items[k])
  {
    var last := |items| - 1;
    HangAllGrows(s, limit, quota, items[..last]);
    var h := HangAll(s, limit, quota, items[..last]);
    if k == last {
      DealtWithNow(h, limit, quota, items[last]);
    } else {
      AllDealtWith(s, limit, quota, items[..last], k);
      DealtWithStays(h, limit, quota, items[k], items[last]);
    }
  }

  /** The same, with the count read off the edges. */
  ghost predicate Complete(t: State, limit: nat, quota: nat, item: Item) {
    || EdgeOf(item) in t.edgeIds
    || |Leaving(t.edgeIds, item.asset, item.relation)| >= quota
    || (|t.nodes| >= limit && item.id !in t.nodeIds)
  }

  lemma PhaseIsComplete(s: State, limit: nat, quota: nat, items: seq<Item>, relation: Relation, k: nat)
    requires DistinctEdges(items, relation) && (forall e :: e in s.edgeIds ==> e.relation != relation)
    requires k < |items| && AssetNode(items[k].asset) in s.nodeIds
    ensures Complete(HangAll(s, limit, quota, items).state, limit, quota, items[k])
  {
    AllDealtWith(s, limit, quota, items, k);
    CountsAreEdges(s, limit, quota, items, relation, items[k].asset);
  }

  lemma {:induction false} AlertEdgeDiffers(assetTable: seq<Asset>, limit: nat, table: seq<AlertRow>, items: seq<Item>, j: nat, k: nat)
    requires items == Take(OpenAlerts(Take(assetTable, limit), table), limit * 2)
    requires forall x, y :: 0 <= x < y < |table| ==> table[x].id != table[y].id
    requires j < k < |items|
    ensures EdgeOf(items[j]) != EdgeOf(items[k])
  {
    var x := AlertFrom(Take(assetTable, limit), table, j);
    var y := AlertFrom(Take(assetTable, limit), table, k);
    assert x != y;
    assert items[j].id == AlertNode(table[x].id) && items[k].id == AlertNode(table[y].id);
    assert table[x].id != table[y].id;
  }

  lemma AlertEdgesDiffer(assetTable: seq<Asset>, limit: nat, table: seq<AlertRow>, items: seq<Item>)
    requires items == Take(OpenAlerts(Take(assetTable, limit), table), limit * 2)
    requires forall x, y :: 0 <= x < y < |table| ==> table[x].id != table[y].id
    ensures DistinctEdges(items, HasAlert)
  {
    AlertRelations(Take(assetTable, limit), table);
    forall j: nat, k: nat | j < k < |items|
      ensures EdgeOf(items[j]) != EdgeOf(items[k])
    {
      AlertEdgeDiffers(assetTable, limit, table, items, j, k);
    }
  }

  lemma {:induction false} LinkEdgeDiffers(assetTable: seq<Asset>, limit: nat, table: seq<CveLink>, items: seq<Item>, j: nat, k: nat)
    requires items == Take(CveLinks(Take(assetTable, limit), table), limit * 4)
    requires forall x, y :: 0 <= x < y < |table| ==> table[x] != table[y]
    requires j < k < |items|
    ensures EdgeOf(items[j]) != EdgeOf(items[k])
  {
    var x := LinkFrom(Take(assetTable, limit), table, j);
    var y := LinkFrom(Take(assetTable, limit), table, k);
    assert x != y;
    assert items[j] == CveItem(table[x]) && items[k] == CveItem(table[y]);
    assert table[x] != table[y];
  }

  lemma LinkEdgesDiffer(assetTable: seq<Asset>, limit: nat, table: seq<CveLink>, items: seq<Item>)
    requires items == Take(CveLinks(Take(assetTable, limit), table), limit * 4)
    requires forall x, y :: 0 <= x < y < |table| ==> table[x] != table[y]
    ensures DistinctEdges(items, AffectedBy)
  {
    CveRelations(Take(assetTable, limit), table);
    forall j: nat, k: nat | j < k < |items|
      ensures EdgeOf(items[j]) != EdgeOf(items[k])
    {
      LinkEdgeDiffers(assetTable, limit, table, items, j, k);
    }
  }

  /** Only assets of the asset phase have nodes. */
  lemma AssetNodesComeFirst(s: State, limit: nat, quota: nat, items: seq<Item>, x: nat)
    requires forall k :: 0 <= k < |items| ==> !items[k].id.AssetNode?
    requires s.nodeIds == Ids(s.nodes) && HangAll(s, limit, quota, items).state.nodeIds == Ids(HangAll(s, limit, quota, items).state.nodes)
    requires AssetNode(x) in HangAll(s, limit, quota, items).state.nodeIds
    ensures AssetNode(x) in s.nodeIds
  {
    var n :| n in HangAll(s, limit, quota, items).state.nodes && n.id == AssetNode(x);
    if n !in s.nodes { HangAllNodes(s, limit, quota, items, n); }
  }

  /** A later phase of another relation takes nothing of this away. */
  lemma StaysComplete(t: State, limit: nat, quota: nat, more: nat, items: seq<Item>, relation: Relation, item: Item)
    requires Complete(t, limit, quota, item) && item.relation != relation
    requires forall k :: 0 <= k < |items| ==> items[k].relation == relation
    ensures Complete(HangAll(t, limit, more, items).state, limit, quota, item)
  {
    HangAllGrows(t, limit, more, items);
    OtherRelationsStay(t, limit, more, items, item.relation, item.asset);
    if |t.nodes| >= limit { FullStaysFull(t, limit, more, items); }
  }

  /** The asset and alert phases bring no edges of the relations that follow. */
  lemma EarlierRelations(limit: nat, assets: seq<Asset>, alerts: seq<AlertRow>, e: Edge)
    ensures var s := AddAssets(EMPTY, limit, assets).state;
            var t := HangAll(s, limit, MAX_ALERTS, Take(OpenAlerts(assets, alerts), limit * 2)).state;
            && (e in s.edgeIds ==> e.relation != HasAlert && e.relation != AffectedBy)
            && (e in t.edgeIds ==> e.relation != AffectedBy)
  {
    var s := AddAssets(EMPTY, limit, assets).state;
    var items := Take(OpenAlerts(assets, alerts), limit * 2);
    if e in s.edgeIds {
      AddAssetsEdges(limit, assets, e);
      AssetEdgeRelations(assets, e);
    } else if e in HangAll(s, limit, MAX_ALERTS, items).state.edgeIds {
      AlertRelations(assets, alerts);
      HangAllEdges(s, limit, MAX_ALERTS, items, e);
    }
  }

  /** An asset node of the finished graph was there after each phase. */
  lemma AssetNodesOfPhases(limit: nat, assetTable: seq<Asset>, alerts: seq<AlertRow>, cves: seq<CveLink>, vulnerabilities: bool, x: nat)
    requires AssetNode(x) in Build(limit, assetTable, alerts, cves, vulnerabilities).nodeIds
    ensures var listed := Take(assetTable, limit);
            var s := AddAssets(EMPTY, limit, listed).state;
            var t := HangAll(s, limit, MAX_ALERTS, Take(OpenAlerts(listed, alerts), limit * 2)).state;
            && Build(limit, assetTable, alerts, cves, vulnerabilities) == Evidence(s, limit, listed, alerts, cves, vulnerabilities)
            && AssetNode(x) in s.nodeIds && AssetNode(x) in t.nodeIds
  {
    var listed := Take(assetTable, limit);
    var s := AddAssets(EMPTY, limit, listed).state;
    var alertItems, cveItems := Take(OpenAlerts(listed, alerts), limit * 2), Take(CveLinks(listed, cves), limit * 4);
    var t := HangAll(s, limit, MAX_ALERTS, alertItems).state;
    AddAssetsKeeps(limit, listed);
    AssetsCovered(limit, listed);
    AlertPhaseKeeps(s, limit, listed, alerts);
    CvePhaseKeeps(t, limit, listed, cves);
    AlertsConcern(listed, alerts);
    CvesConcern(listed, cves);
    if AssetNode(x) in HangAll(t, limit, MAX_CVES, cveItems).state.nodeIds { AssetNodesComeFirst(t, limit, MAX_CVES, cveItems, x); }
    if AssetNode(x) in t.nodeIds { AssetNodesComeFirst(s, limit, MAX_ALERTS, alertItems, x); }
    HangAllGrows(s, limit, MAX_ALERTS, alertItems);
  }

  lemma Phases(limit: nat, assetTable: seq<Asset>, alerts: seq<AlertRow>, cves: seq<CveLink>, vulnerabilities: bool, x: nat)
    requires AssetNode(x) in Build(limit, assetTable, alerts, cves, vulnerabilities).nodeIds
    ensures var listed := Take(assetTable, limit);
            var s := AddAssets(EMPTY, limit, listed).state;
            var t := HangAll(s, limit, MAX_ALERTS, Take(OpenAlerts(listed, alerts), limit * 2)).state;
            && Build(limit, assetTable, alerts, cves, vulnerabilities) == Evidence(s, limit, listed, alerts, cves, vulnerabilities)
            && AssetNode(x) in s.nodeIds && AssetNode(x) in t.nodeIds
            && (forall e :: e in s.edgeIds ==> e.relation != HasAlert && e.relation != AffectedBy)
            && (forall e :: e in t.edgeIds ==> e.relation != AffectedBy)
  {
    AssetNodesOfPhases(limit, assetTable, alerts, cves, vulnerabilities, x);
    forall e: Edge {
      EarlierRelations(limit, Take(assetTable, limit), alerts, e);
    }
  }

  /**
    Full or not, a graph shows the queried alerts of every asset in it, unless the asset already
    shows two or the alert's own node did not fit.
   */
  lemma AlertsAreMissedOnlyForRoom(limit: nat, assetTable: seq<Asset>, alerts: seq<AlertRow>, cves: seq<CveLink>, vulnerabilities: bool, k: nat)
    requires forall i, j :: 0 <= i < j < |alerts| ==> alerts[i].id != alerts[j].id
    requires k < |alerts| && AlertQueried(assetTable, limit, alerts, k)
    requires AssetNode(alerts[k].asset) in Build(limit, assetTable, alerts, cves, vulnerabilities).nodeIds
    ensures var g, r := Build(limit, assetTable, alerts, cves, vulnerabilities), alerts[k];
            || Edge(AssetNode(r.asset), AlertNode(r.id), HasAlert) in g.edgeIds
            || |Leaving(g.edgeIds, r.asset, HasAlert)| >= 2
            || (|g.nodes| >= limit && AlertNode(r.id) !in g.nodeIds)
  {
    var listed := Take(assetTable, limit);
    var s := AddAssets(EMPTY, limit, listed).state;
    var items := Take(OpenAlerts(listed, alerts), limit * 2);
    var t := HangAll(s, limit, MAX_ALERTS, items).state;
    Phases(limit, assetTable, alerts, cves, vulnerabilities, alerts[k].asset);
    AlertEdgesDiffer(assetTable, limit, alerts, items);
    ChosenIsListed(assetTable, limit, alerts[k].asset);
    AlertPlace(assetTable, limit, listed, alerts, k, items);
    var j := |OpenAlerts(listed, alerts[..k])|;
    PhaseIsComplete(s, limit, MAX_ALERTS, items, HasAlert, j);
    CveRelations(listed, cves);
    StaysComplete(t, limit, MAX_ALERTS, MAX_CVES, Take(CveLinks(listed, cves), limit * 4), AffectedBy, items[j]);
  }

  /** So it does the queried CVEs, unless the asset shows four or the CVE's node did not fit. */
  lemma CvesAreMissedOnlyForRoom(limit: nat, assetTable: seq<Asset>, alerts: seq<AlertRow>, cves: seq<CveLink>, k: nat)
    requires forall i, j :: 0 <= i < j < |cves| ==> cves[i] != cves[j]
    requires k < |cves| && LinkQueried(assetTable, limit, cves, k)
    requires AssetNode(cves[k].asset) in Build(limit, assetTable, alerts, cves, true).nodeIds
    ensures var g, r := Build(limit, assetTable, alerts, cves, true), cves[k];
            || Edge(AssetNode(r.asset), CveNode(r.cve), AffectedBy) in g.edgeIds
            || |Leaving(g.edgeIds, r.asset, AffectedBy)| >= 4
            || (|g.nodes| >= limit && CveNode(r.cve) !in g.nodeIds)
  {
    var listed := Take(assetTable, limit);
    var s := AddAssets(EMPTY, limit, listed).state;
    var t := HangAll(s, limit, MAX_ALERTS, Take(OpenAlerts(listed, alerts), limit * 2)).state;
    var items := Take(CveLinks(listed, cves), limit * 4);
    Phases(limit, assetTable, alerts, cves, true, cves[k].asset);
    LinkEdgesDiffer(assetTable, limit, cves, items);
    ChosenIsListed(assetTable, limit, cves[k].asset);
    LinkPlace(assetTable, limit, listed, cves, k, items);
    PhaseIsComplete(t, limit, MAX_CVES, items, AffectedBy, |CveLinks(listed, cves[..k])|);
  }
}
