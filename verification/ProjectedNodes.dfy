/** What the nodes the projection adds say, told from the fields of the items. */
module ProjectedNodes {
  import opened Common
  import opened Text
  import opened AssetProjection

  /** The item reports this site, asset and tag: it is observed and none of the three is blank. */
  predicate Reports(item: Item, site: string, asset: string, tag: string) {
    && item.source == "observed" && Strip(item.siteId) == site && item.assetId == asset && item.tag == tag
    && site != "" && Strip(asset) != "" && Strip(tag) != ""
  }

  /** The item reports something of this site and asset. */
  predicate ReportsAsset(item: Item, site: string, asset: string) { Reports(item, site, asset, item.tag) }

  ghost predicate Reported(items: seq<Item>, site: string, asset: string, tag: string) {
    exists i :: 0 <= i < |items| && Reports(items[i], site, asset, tag)
  }

  lemma ReportedIsObserved(items: seq<Item>, site: string, asset: string, tag: string)
    ensures Reported(items, site, asset, tag) <==> Observes(items, site, asset, tag)
  {
    assert forall i | 0 <= i < |items| ::
        Reports(items[i], site, asset, tag) <==>
        IsValid(items[i]) && SiteOf(items[i]) == site && items[i].assetId == asset && items[i].tag == tag;
  }

  /** Every reported site, asset and tag has its leaf, exactly one where the tree had none, and everything else
      as many leaves as before. */
  lemma OneLeafPerReport(tree: seq<Node>, items: seq<Item>, site: string, asset: string, tag: string)
    ensures LeafCount(Projected(tree, items), site, asset, tag)
            == if Reported(items, site, asset, tag) && LeafCount(tree, site, asset, tag) == 0 then 1 else LeafCount(tree, site, asset, tag)
  {
    OneLeafEach(tree, items, site, asset, tag);
    ReportedIsObserved(items, site, asset, tag);
  }

  // ---------- The leaf ----------

  /** The leaf of the tag, found from the root by the ids on the way. */
  function LeafOf(tree: seq<Node>, site: string, asset: string, tag: string): Option<Node> {
    FindChild(Kids(Kids(Kids(tree, site), "observed-sources"), asset), asset + "." + tag)
  }

  function FirstReport(items: seq<Item>, site: string, asset: string, tag: string): Option<Item> {
    if items == [] then None
    else
      var n := |items| - 1;
      OrElse(FirstReport(items[..n], site, asset, tag), if Reports(items[n], site, asset, tag) then Some(items[n]) else None)
  }

  function OrElse<T>(first: Option<T>, other: Option<T>): Option<T> { if first.Some? then first else other }

  lemma FindAfterEnsured(nodes: seq<Node>, blank: Node, id: string)
    ensures FindChild(Ensured(nodes, blank), id) == OrElse(FindChild(nodes, id), if id == blank.id then Some(blank) else None)
  {
    var all := Ensured(nodes, blank);
    var i := IndexOf(nodes, id);
    IndexIsFirst(all, id, if i < |nodes| then i else if id == blank.id then |nodes| else |all|);
  }

  lemma {:induction false} FirstReportAppend(items: seq<Item>, item: Item, site: string, asset: string, tag: string)
    ensures FirstReport(items + [item], site, asset, tag)
            == OrElse(FirstReport(items, site, asset, tag), if Reports(item, site, asset, tag) then Some(item) else None)
  {
    assert (items + [item])[..|items|] == items;
  }

  /** The leaf an item gives rise to. */
  function LeafFrom(site: string, item: Option<Item>): Option<Node> {
    match item
    case None => None
    case Some(x) => Some(Node(x.assetId + "." + x.tag, Info(x.tag, "tag", "observed", site, x.unit, x.lastSeen), []))
  }

  function LeafIn(assets: seq<Node>, asset: string, tag: string): Option<Node> {
    FindChild(Kids(assets, asset), asset + "." + tag)
  }

  lemma AddItemLeaf(assets: seq<Node>, site: string, item: Item, asset: string, tag: string)
    requires IsValid(item) && SiteOf(item) == site
    ensures LeafIn(AddItem(assets, site, item), asset, tag)
            == OrElse(LeafIn(assets, asset, tag), LeafFrom(site, if Reports(item, site, asset, tag) then Some(item) else None))
  {
    var tags := Kids(assets, item.assetId);
    KidsAfterPut(assets, AssetNode(site, item), Ensured(tags, LeafNode(site, item)), asset);
    FindAfterEnsured(tags, LeafNode(site, item), asset + "." + tag);
    LeafIdsAreDistinct(asset, tag, item.tag);
  }

  predicate AllOf(items: seq<Item>, site: string) {
    forall i | 0 <= i < |items| :: IsValid(items[i]) && SiteOf(items[i]) == site
  }

  lemma {:induction false} AddItemsLeaf(assets: seq<Node>, site: string, items: seq<Item>, asset: string, tag: string)
    requires AllOf(items, site)
    ensures LeafIn(AddItems(assets, site, items), asset, tag)
            == OrElse(LeafIn(assets, asset, tag), LeafFrom(site, FirstReport(items, site, asset, tag)))
  {
    if items != [] {
      var n := |items| - 1;
      AddItemsLeaf(assets, site, items[..n], asset, tag);
      AddItemLeaf(AddItems(assets, site, items[..n]), site, items[n], asset, tag);
    }
  }

  lemma {:induction false} AddSiteLeaf(tree: seq<Node>, site: string, items: seq<Item>, other: string, asset: string, tag: string)
    requires AllOf(items, site)
    ensures LeafOf(AddSite(tree, site, items), other, asset, tag)
            == OrElse(LeafOf(tree, other, asset, tag), if other == site then LeafFrom(site, FirstReport(items, site, asset, tag)) else None)
  {
    var kids := Kids(tree, site);
    var assets := Kids(kids, OBSERVED_SOURCES);
    var grown := AddItems(assets, site, items);
    KidsAfterPut(tree, SiteNode(site), Put(kids, GroupNode(site), grown), other);
    KidsAfterPut(kids, GroupNode(site), grown, OBSERVED_SOURCES);
    AddItemsLeaf(assets, site, items, asset, tag);
  }

  /** The items of a site are valid ones of it, and report first what all items report first. */
  lemma {:induction false} ItemsOfReportFirst(items: seq<Item>, site: string, asset: string, tag: string)
    ensures AllOf(ItemsOf(items, site), site)
    ensures FirstReport(ItemsOf(items, site), site, asset, tag) == FirstReport(items, site, asset, tag)
  {
    if items != [] {
      var n := |items| - 1;
      ItemsOfReportFirst(items[..n], site, asset, tag);
      FirstReportAppend(ItemsOf(items[..n], site), items[n], site, asset, tag);
    }
  }

  lemma {:induction false} AddSitesLeaf(tree: seq<Node>, items: seq<Item>, sites: seq<string>, site: string, asset: string, tag: string)
    requires NoDuplicates(sites)
    ensures LeafOf(AddSites(tree, items, sites), site, asset, tag)
            == OrElse(LeafOf(tree, site, asset, tag), if site in sites then LeafFrom(site, FirstReport(items, site, asset, tag)) else None)
  {
    if sites != [] {
      var n := |sites| - 1;
      SplitLast(sites, site);
      AddSitesLeaf(tree, items, sites[..n], site, asset, tag);
      ItemsOfReportFirst(items, sites[n], asset, tag);
      AddSiteLeaf(AddSites(tree, items, sites[..n]), sites[n], ItemsOf(items, sites[n]), site, asset, tag);
    }
  }

  lemma {:induction false} UnlistedIsUnreported(items: seq<Item>, site: string, asset: string, tag: string)
    ensures site !in Sites(items) ==> FirstReport(items, site, asset, tag) == None
  {
    if items != [] {
      var n := |items| - 1;
      UnlistedIsUnreported(items[..n], site, asset, tag);
    }
  }

  /** The leaf of a tag is the one the tree had, whatever is observed; otherwise it carries the tag, unit and
      last sighting of the first item that reports it, and there is none when no item does. */
  lemma {:induction false} LeafIsFirstReport(tree: seq<Node>, items: seq<Item>, site: string, asset: string, tag: string)
    ensures LeafOf(Projected(tree, items), site, asset, tag)
            == OrElse(LeafOf(tree, site, asset, tag), LeafFrom(site, FirstReport(items, site, asset, tag)))
  {
    SitesAreDistinct(items);
    AddSitesLeaf(tree, items, Sites(items), site, asset, tag);
    UnlistedIsUnreported(items, site, asset, tag);
  }

  // ---------- The nodes above ----------

  function InfoOf(nodes: seq<Node>, id: string): Option<Info> {
    match FindChild(nodes, id)
    case None => None
    case Some(node) => Some(node.info)
  }

  lemma InfoAfterPut(nodes: seq<Node>, blank: Node, kids: seq<Node>, id: string)
    ensures InfoOf(Put(nodes, blank, kids), id) == OrElse(InfoOf(nodes, id), if id == blank.id then Some(blank.info) else None)
  {
    var at, r, i := IndexOf(nodes, blank.id), Put(nodes, blank, kids), IndexOf(nodes, id);
    PutAt(nodes, blank, kids, at);
    IndexIsFirst(r, id, if i < |nodes| then i else if id == blank.id then at else |r|);
  }

  function FirstOfAsset(items: seq<Item>, site: string, asset: string): Option<Item> {
    if items == [] then None
    else
      var n := |items| - 1;
      OrElse(FirstOfAsset(items[..n], site, asset), if ReportsAsset(items[n], site, asset) then Some(items[n]) else None)
  }

  /** An asset is named as its first item names it, or else by its id. */
  function AssetFrom(site: string, item: Option<Item>): Option<Info> {
    match item
    case None => None
    case Some(x) => Some(Info(if x.assetName == "" then x.assetId else x.assetName, "observed-asset", "observed", site, "", None))
  }

  lemma {:induction false} AddItemsAsset(assets: seq<Node>, site: string, items: seq<Item>, asset: string)
    requires AllOf(items, site)
    ensures InfoOf(AddItems(assets, site, items), asset)
            == OrElse(InfoOf(assets, asset), AssetFrom(site, FirstOfAsset(items, site, asset)))
  {
    if items != [] {
      var n := |items| - 1;
      var before := AddItems(assets, site, items[..n]);
      AddItemsAsset(assets, site, items[..n], asset);
      InfoAfterPut(before, AssetNode(site, items[n]), Ensured(Kids(before, items[n].assetId), LeafNode(site, items[n])), asset);
    }
  }

  lemma {:induction false} ItemsOfNameFirst(items: seq<Item>, site: string, asset: string)
    ensures FirstOfAsset(ItemsOf(items, site), site, asset) == FirstOfAsset(items, site, asset)
    ensures site !in Sites(items) ==> FirstOfAsset(items, site, asset) == None
  {
    if items != [] {
      var n := |items| - 1;
      var before := ItemsOf(items[..n], site);
      ItemsOfNameFirst(items[..n], site, asset);
      assert (before + [items[n]])[..|before|] == before;
    }
  }

  /** The three nodes on the way to a leaf, as they are described; None where there is none. */
  datatype Way = Way(site: Option<Info>, group: Option<Info>, asset: Option<Info>)

  function WayTo(tree: seq<Node>, site: string, asset: string): Way {
    Way(InfoOf(tree, site), InfoOf(Kids(tree, site), "observed-sources"), InfoOf(Kids(Kids(tree, site), "observed-sources"), asset))
  }

  /** What is described stays so, and what is missing is described as observed. */
  function Filled(way: Way, site: string, first: Option<Item>): Way {
    Way(OrElse(way.site, Some(Info(site, "site", "observed", site, "", None))),
        OrElse(way.group, Some(Info("Observed sources", "area", "observed", site, "", None))),
        OrElse(way.asset, AssetFrom(site, first)))
  }

  lemma {:induction false} AddSiteFills(tree: seq<Node>, site: string, items: seq<Item>, other: string, asset: string)
    requires AllOf(items, site)
    ensures WayTo(AddSite(tree, site, items), other, asset)
            == if other == site then Filled(WayTo(tree, site, asset), site, FirstOfAsset(items, site, asset)) else WayTo(tree, other, asset)
  {
    var kids := Kids(tree, site);
    var assets := Kids(kids, OBSERVED_SOURCES);
    var grown := AddItems(assets, site, items);
    var group := Put(kids, GroupNode(site), grown);
    KidsAfterPut(tree, SiteNode(site), group, other);
    InfoAfterPut(tree, SiteNode(site), group, other);
    KidsAfterPut(kids, GroupNode(site), grown, OBSERVED_SOURCES);
    InfoAfterPut(kids, GroupNode(site), grown, OBSERVED_SOURCES);
    AddItemsAsset(assets, site, items, asset);
  }

  lemma {:induction false} AddSitesFills(tree: seq<Node>, items: seq<Item>, sites: seq<string>, site: string, asset: string)
    requires NoDuplicates(sites)
    ensures WayTo(AddSites(tree, items, sites), site, asset)
            == if site in sites then Filled(WayTo(tree, site, asset), site, FirstOfAsset(items, site, asset)) else WayTo(tree, site, asset)
  {
    if sites != [] {
      var n := |sites| - 1;
      SplitLast(sites, site);
      AddSitesFills(tree, items, sites[..n], site, asset);
      ItemsOfReportFirst(items, sites[n], asset, "");
      ItemsOfNameFirst(items, sites[n], asset);
      AddSiteFills(AddSites(tree, items, sites[..n]), sites[n], ItemsOf(items, sites[n]), site, asset);
    }
  }

  lemma {:induction false} SiteIsReported(items: seq<Item>, site: string)
    ensures site in Sites(items) <==> exists i :: 0 <= i < |items| && ReportsAsset(items[i], site, items[i].assetId)
  {
    if items != [] {
      var n := |items| - 1;
      SiteIsReported(items[..n], site);
      assert forall i | 0 <= i < n :: items[..n][i] == items[i];
      assert site in Sites(items) <==> site in Sites(items[..n]) || ReportsAsset(items[n], site, items[n].assetId);
    }
  }

  /** The site, the group and the asset above a leaf: those of the tree stay as they are described, and a site that
      some item reports is given what it lacks, with the asset named by the first item that reports it. */
  lemma {:induction false} NodesAboveLeaf(tree: seq<Node>, items: seq<Item>, site: string, asset: string)
    ensures WayTo(Projected(tree, items), site, asset)
            == if exists i :: 0 <= i < |items| && ReportsAsset(items[i], site, items[i].assetId)
               then Filled(WayTo(tree, site, asset), site, FirstOfAsset(items, site, asset)) else WayTo(tree, site, asset)
  {
    SitesAreDistinct(items);
    AddSitesFills(tree, items, Sites(items), site, asset);
    SiteIsReported(items, site);
  }
}
