/** Observed signals projected into the asset tree, apart from the configured hierarchy. */
module AssetProjection {
  import opened Common
  import opened Text

  datatype Info = Info(name: string, kind: string, origin: string, siteId: string, unit: string, lastSeen: Option<string>)

  datatype Node = Node(id: string, info: Info, children: seq<Node>)

  datatype Item = Item(source: string, siteId: string, assetId: string, assetName: string, tag: string, unit: string,
                       lastSeen: Option<string>)

  const OBSERVED_SOURCES := "observed-sources"

  // ---------- Children by id ----------

  /** The position of the first child with the id, or the length. */
  function IndexOf(nodes: seq<Node>, id: string): (i: nat)
    ensures i <= |nodes|
    ensures i < |nodes| ==> nodes[i].id == id
    ensures forall j | 0 <= j < i :: nodes[j].id != id
  {
    if nodes == [] || nodes[0].id == id then 0 else 1 + IndexOf(nodes[1..], id)
  }

  function FindChild(nodes: seq<Node>, id: string): Option<Node> {
    var i := IndexOf(nodes, id);
    if i < |nodes| then Some(nodes[i]) else None
  }

  /** The children of the first node with the id. */
  function Kids(nodes: seq<Node>, id: string): seq<Node> {
    var i := IndexOf(nodes, id);
    if i < |nodes| then nodes[i].children else []
  }

  function Ensured(nodes: seq<Node>, blank: Node): seq<Node> {
    if IndexOf(nodes, blank.id) < |nodes| then nodes else nodes + [blank]
  }

  /** Gives the first node with the id of `blank` these children, adding `blank` when there is none. */
  function Put(nodes: seq<Node>, blank: Node, kids: seq<Node>): (r: seq<Node>)
  {
    var all := Ensured(nodes, blank);
    EnsuredFinds(nodes, blank);
    var i := IndexOf(all, blank.id);
    all[i := all[i].(children := kids)]
  }

  lemma {:induction false} IndexIsFirst(nodes: seq<Node>, id: string, i: nat)
    requires i <= |nodes| && (i < |nodes| ==> nodes[i].id == id)
    requires forall j | 0 <= j < i :: nodes[j].id != id
    ensures IndexOf(nodes, id) == i
  {
  }

  lemma {:induction false} EnsuredFinds(nodes: seq<Node>, blank: Node)
    ensures IndexOf(Ensured(nodes, blank), blank.id) == IndexOf(nodes, blank.id) < |Ensured(nodes, blank)|
  {
    IndexIsFirst(Ensured(nodes, blank), blank.id, IndexOf(nodes, blank.id));
  }

  lemma {:induction false} PutAt(nodes: seq<Node>, blank: Node, kids: seq<Node>, i: nat)
    requires i == IndexOf(nodes, blank.id)
    ensures var r := Put(nodes, blank, kids);
            && |r| == (if i < |nodes| then |nodes| else |nodes| + 1)
            && r[i] == (if i < |nodes| then nodes[i] else blank).(children := kids)
            && forall j | 0 <= j < |nodes| && j != i :: r[j] == nodes[j]
  {
    EnsuredFinds(nodes, blank);
  }

  /** What was put is found, and every other id finds what it found before. */
  lemma KidsAfterPut(nodes: seq<Node>, blank: Node, kids: seq<Node>, id: string)
    ensures Kids(Put(nodes, blank, kids), id) == if id == blank.id then kids else Kids(nodes, id)
  {
    var at, r := IndexOf(nodes, blank.id), Put(nodes, blank, kids);
    PutAt(nodes, blank, kids, at);
    if id == blank.id {
      IndexIsFirst(r, id, at);
    } else {
      var i := IndexOf(nodes, id);
      IndexIsFirst(r, id, if i < |nodes| then i else |r|);
    }
  }

  lemma {:induction false} PutBack(nodes: seq<Node>, blank: Node)
    requires IndexOf(nodes, blank.id) < |nodes|
    ensures Put(nodes, blank, Kids(nodes, blank.id)) == nodes
  {
    PutAt(nodes, blank, Kids(nodes, blank.id), IndexOf(nodes, blank.id));
  }

  // ---------- The projection as a function ----------

  predicate IsValid(item: Item) {
    item.source == "observed" && Strip(item.siteId) != "" && Strip(item.assetId) != "" && Strip(item.tag) != ""
  }

  function SiteOf(item: Item): string { Strip(item.siteId) }

  function SiteNode(site: string): Node {
    Node(site, Info(site, "site", "observed", site, "", None), [])
  }

  function GroupNode(site: string): Node {
    Node(OBSERVED_SOURCES, Info("Observed sources", "area", "observed", site, "", None), [])
  }

  function AssetNode(site: string, item: Item): Node {
    Node(item.assetId,
         Info(if item.assetName != "" then item.assetName else item.assetId, "observed-asset", "observed", site, "", None), [])
  }

  function LeafId(asset: string, tag: string): string { asset + "." + tag }

  function LeafNode(site: string, item: Item): Node {
    Node(LeafId(item.assetId, item.tag), Info(item.tag, "tag", "observed", site, item.unit, item.lastSeen), [])
  }

  function AddItem(assets: seq<Node>, site: string, item: Item): seq<Node> {
    Put(assets, AssetNode(site, item), Ensured(Kids(assets, item.assetId), LeafNode(site, item)))
  }

  function AddItems(assets: seq<Node>, site: string, items: seq<Item>): seq<Node> {
    if items == [] then assets else AddItem(AddItems(assets, site, items[..|items| - 1]), site, items[|items| - 1])
  }

  function AddSite(tree: seq<Node>, site: string, items: seq<Item>): seq<Node> {
    var kids := Kids(tree, site);
    Put(tree, SiteNode(site), Put(kids, GroupNode(site), AddItems(Kids(kids, OBSERVED_SOURCES), site, items)))
  }

  /** The sites of the valid items, in the order they first appear. */
  function Sites(items: seq<Item>): seq<string> {
    if items == [] then []
    else
      var last, before := items[|items| - 1], Sites(items[..|items| - 1]);
      if IsValid(last) && SiteOf(last) !in before then before + [SiteOf(last)] else before
  }

  function ItemsOf(items: seq<Item>, site: string): seq<Item> {
    if items == [] then []
    else
      var last, before := items[|items| - 1], ItemsOf(items[..|items| - 1], site);
      if IsValid(last) && SiteOf(last) == site then before + [last] else before
  }

  function AddSites(tree: seq<Node>, items: seq<Item>, sites: seq<string>): seq<Node> {
    if sites == [] then tree
    else
      var last := sites[|sites| - 1];
      AddSite(AddSites(tree, items, sites[..|sites| - 1]), last, ItemsOf(items, last))
  }

  function Projected(tree: seq<Node>, items: seq<Item>): seq<Node> {
    AddSites(tree, items, Sites(items))
  }

  lemma {:induction false} NextSite(tree: seq<Node>, items: seq<Item>, sites: seq<string>, i: nat)
    requires i < |sites|
    ensures AddSites(tree, items, sites[..i + 1])
            == AddSite(AddSites(tree, items, sites[..i]), sites[i], ItemsOf(items, sites[i]))
  {
    assert sites[..i + 1][..i] == sites[..i];
  }

  // ---------- The loops ----------

  predicate GroupsAre(bySite: map<string, seq<Item>>, items: seq<Item>) {
    && bySite.Keys == (set s | s in Sites(items))
    && forall s | s in bySite :: bySite[s] == ItemsOf(items, s)
  }

  lemma {:induction false} NoItemsElsewhere(items: seq<Item>, site: string)
    requires site !in Sites(items)
    ensures ItemsOf(items, site) == []
  {
    if items != [] { NoItemsElsewhere(items[..|items| - 1], site); }
  }

  lemma GroupsGrow(bySite: map<string, seq<Item>>, items: seq<Item>, item: Item)
    requires GroupsAre(bySite, items)
    ensures var s := SiteOf(item);
            var known := if s in bySite then bySite[s] else [];
            GroupsAre(if IsValid(item) then bySite[s := known + [item]] else bySite, items + [item])
  {
    var all, s := items + [item], SiteOf(item);
    assert all[..|items|] == items;
    if s !in bySite { NoItemsElsewhere(items, s); }
  }

  /** The items of each site, keyed by the stripped site id, and the order of the keys. */
  method GroupItems(items: seq<Item>) returns (bySite: map<string, seq<Item>>, sites: seq<string>)
    ensures sites == Sites(items) && GroupsAre(bySite, items)
  {
    bySite, sites := map[], [];
    for i := 0 to |items|
      invariant sites == Sites(items[..i]) && GroupsAre(bySite, items[..i])
    {
      var item := items[i];
      assert items[..i + 1] == items[..i] + [item];
      GroupsGrow(bySite, items[..i], item);
      if IsValid(item) {
        var s := SiteOf(item);
        if s !in bySite { sites := sites + [s]; }
        bySite := bySite[s := (if s in bySite then bySite[s] else []) + [item]];
      }
    }
    assert items[..|items|] == items;
  }

  method AppendItems(assets: seq<Node>, site: string, items: seq<Item>) returns (grown: seq<Node>)
    ensures grown == AddItems(assets, site, items)
  {
    grown := assets;
    for i := 0 to |items|
      invariant grown == AddItems(assets, site, items[..i])
    {
      var item := items[i];
      assert items[..i + 1][..i] == items[..i];
      EnsuredFinds(grown, AssetNode(site, item));
      var found := FindChild(grown, item.assetId);
      if found.None? { grown := grown + [AssetNode(site, item)]; }
      var at := IndexOf(grown, item.assetId);
      var tags := grown[at].children;
      if FindChild(tags, LeafId(item.assetId, item.tag)).None? { tags := tags + [LeafNode(site, item)]; }
      grown := grown[at := grown[at].(children := tags)];
    }
    assert items[..|items|] == items;
  }

  /** The tree the projection grows in place. */
  class AssetTree {
    var roots: seq<Node>

    constructor (configured: seq<Node>)
      ensures roots == configured
    {
      roots := configured;
    }

    /** The site and its group of observed sources come to exist, and the items go into the group. */
    method AppendSite(site: string, items: seq<Item>)
      modifies this
      ensures roots == AddSite(old(roots), site, items)
    {
      EnsuredFinds(roots, SiteNode(site));
      if FindChild(roots, site).None? { roots := roots + [SiteNode(site)]; }
      var at := IndexOf(roots, site);
      var children := roots[at].children;
      EnsuredFinds(children, GroupNode(site));
      if FindChild(children, OBSERVED_SOURCES).None? { children := children + [GroupNode(site)]; }
      var group := IndexOf(children, OBSERVED_SOURCES);
      var assets := AppendItems(children[group].children, site, items);
      children := children[group := children[group].(children := assets)];
      roots := roots[at := roots[at].(children := children)];
    }

    /** The merge: every site of the items gets its group, every item its asset and its leaf there. */
    method AppendObserved(items: seq<Item>)
      modifies this
      ensures roots == Projected(old(roots), items)
    {
      var bySite, sites := GroupItems(items);
      for i := 0 to |sites|
        invariant roots == AddSites(old(roots), items, sites[..i])
      {
        NextSite(old(roots), items, sites, i);
        assert sites[i] in bySite;
        AppendSite(sites[i], bySite[sites[i]]);
      }
      assert sites[..|sites|] == sites;
    }
  }

  // ---------- Exactly one leaf ----------

  function CountId(nodes: seq<Node>, id: string): nat {
    if nodes == [] then 0 else CountId(nodes[..|nodes| - 1], id) + if nodes[|nodes| - 1].id == id then 1 else 0
  }

  lemma {:induction false} CountIsZero(nodes: seq<Node>, id: string)
    ensures CountId(nodes, id) == 0 <==> IndexOf(nodes, id) == |nodes|
  {
    if nodes != [] {
      var n := |nodes| - 1;
      CountIsZero(nodes[..n], id);
      var k := IndexOf(nodes[..n], id);
      if k < n { IndexIsFirst(nodes, id, k); }
      else { IndexIsFirst(nodes, id, if nodes[n].id == id then n else n + 1); }
    }
  }

  lemma {:induction false} CountAfterEnsured(nodes: seq<Node>, blank: Node, id: string)
    ensures CountId(Ensured(nodes, blank), id) == if id == blank.id then Max(1, CountId(nodes, id)) else CountId(nodes, id)
  {
    CountIsZero(nodes, blank.id);
    assert (nodes + [blank])[..|nodes|] == nodes;
  }

  /** How many leaves of the asset node in the site's observed group carry the id of the tag. */
  function LeafCount(tree: seq<Node>, site: string, asset: string, tag: string): nat {
    AssetCount(Kids(Kids(tree, site), OBSERVED_SOURCES), asset, tag)
  }

  function AssetCount(assets: seq<Node>, asset: string, tag: string): nat {
    CountId(Kids(assets, asset), LeafId(asset, tag))
  }

  lemma LeafIdsAreDistinct(asset: string, tag: string, other: string)
    ensures LeafId(asset, tag) == LeafId(asset, other) <==> tag == other
  {
    assert LeafId(asset, tag)[|asset| + 1..] == tag && LeafId(asset, other)[|asset| + 1..] == other;
  }

  predicate Names(items: seq<Item>, asset: string, tag: string) {
    exists i | 0 <= i < |items| :: items[i].assetId == asset && items[i].tag == tag
  }

  predicate Observes(items: seq<Item>, site: string, asset: string, tag: string) {
    exists i | 0 <= i < |items| :: IsValid(items[i]) && SiteOf(items[i]) == site && items[i].assetId == asset && items[i].tag == tag
  }

  lemma AddItemCounts(assets: seq<Node>, site: string, item: Item, asset: string, tag: string)
    ensures AssetCount(AddItem(assets, site, item), asset, tag)
            == if item.assetId == asset && item.tag == tag then Max(1, AssetCount(assets, asset, tag)) else AssetCount(assets, asset, tag)
  {
    var tags := Kids(assets, item.assetId);
    KidsAfterPut(assets, AssetNode(site, item), Ensured(tags, LeafNode(site, item)), asset);
    CountAfterEnsured(tags, LeafNode(site, item), LeafId(asset, tag));
    LeafIdsAreDistinct(asset, tag, item.tag);
  }

  lemma NamesGrows(items: seq<Item>, asset: string, tag: string)
    requires items != []
    ensures var n := |items| - 1;
            Names(items, asset, tag) <==> Names(items[..n], asset, tag) || (items[n].assetId == asset && items[n].tag == tag)
  {
    var n := |items| - 1;
    if Names(items[..n], asset, tag) {
      var i :| 0 <= i < n && items[..n][i].assetId == asset && items[..n][i].tag == tag;
      assert items[i].assetId == asset;
    }
    if Names(items, asset, tag) {
      var i :| 0 <= i < |items| && items[i].assetId == asset && items[i].tag == tag;
      if i < n { assert items[..n][i].assetId == asset; }
    }
  }

  lemma {:induction false} AddItemsCounts(assets: seq<Node>, site: string, items: seq<Item>, asset: string, tag: string)
    ensures AssetCount(AddItems(assets, site, items), asset, tag)
            == if Names(items, asset, tag) then Max(1, AssetCount(assets, asset, tag)) else AssetCount(assets, asset, tag)
  {
    if items != [] {
      var n := |items| - 1;
      AddItemsCounts(assets, site, items[..n], asset, tag);
      AddItemCounts(AddItems(assets, site, items[..n]), site, items[n], asset, tag);
      NamesGrows(items, asset, tag);
    }
  }

  lemma AddSiteCounts(tree: seq<Node>, site: string, items: seq<Item>, other: string, asset: string, tag: string)
    ensures LeafCount(AddSite(tree, site, items), other, asset, tag)
            == if other == site && Names(items, asset, tag) then Max(1, LeafCount(tree, other, asset, tag))
               else LeafCount(tree, other, asset, tag)
  {
    var kids := Kids(tree, site);
    var assets := Kids(kids, OBSERVED_SOURCES);
    var grown := AddItems(assets, site, items);
    KidsAfterPut(tree, SiteNode(site), Put(kids, GroupNode(site), grown), other);
    KidsAfterPut(kids, GroupNode(site), grown, OBSERVED_SOURCES);
    AddItemsCounts(assets, site, items, asset, tag);
  }

  lemma SplitLast(sites: seq<string>, site: string)
    requires sites != [] && NoDuplicates(sites)
    ensures var n := |sites| - 1;
            && NoDuplicates(sites[..n])
            && sites[n] !in sites[..n]
            && (site in sites <==> site in sites[..n] || site == sites[n])
  {
    assert sites == sites[..|sites| - 1] + [sites[|sites| - 1]];
  }

  lemma {:induction false} AddSitesCounts(tree: seq<Node>, items: seq<Item>, sites: seq<string>, site: string, asset: string,
                                          tag: string)
    requires NoDuplicates(sites)
    ensures LeafCount(AddSites(tree, items, sites), site, asset, tag)
            == if site in sites && Names(ItemsOf(items, site), asset, tag) then Max(1, LeafCount(tree, site, asset, tag))
               else LeafCount(tree, site, asset, tag)
  {
    if sites != [] {
      var n := |sites| - 1;
      var before, last := AddSites(tree, items, sites[..n]), sites[n];
      SplitLast(sites, site);
      AddSitesCounts(tree, items, sites[..n], site, asset, tag);
      AddSiteCounts(before, last, ItemsOf(items, last), site, asset, tag);
    }
  }

  lemma {:induction false} NamesOfSite(items: seq<Item>, site: string, asset: string, tag: string)
    ensures Names(ItemsOf(items, site), asset, tag) <==> Observes(items, site, asset, tag)
  {
    if items != [] {
      var n := |items| - 1;
      NamesOfSite(items[..n], site, asset, tag);
      ObservesGrows(items, site, asset, tag);
      var before := ItemsOf(items[..n], site);
      NamesGrows(before + [items[n]], asset, tag);
      assert (before + [items[n]])[..|before|] == before;
    }
  }

  lemma ObservesGrows(items: seq<Item>, site: string, asset: string, tag: string)
    requires items != []
    ensures var n := |items| - 1;
            Observes(items, site, asset, tag) <==>
            Observes(items[..n], site, asset, tag)
            || (IsValid(items[n]) && SiteOf(items[n]) == site && items[n].assetId == asset && items[n].tag == tag)
  {
    var n := |items| - 1;
    if Observes(items[..n], site, asset, tag) {
      var i :| 0 <= i < n && IsValid(items[..n][i]) && SiteOf(items[..n][i]) == site && items[..n][i].assetId == asset
               && items[..n][i].tag == tag;
      assert IsValid(items[i]);
    }
    if Observes(items, site, asset, tag) {
      var i :| 0 <= i < |items| && IsValid(items[i]) && SiteOf(items[i]) == site && items[i].assetId == asset
               && items[i].tag == tag;
      if i < n { assert IsValid(items[..n][i]); }
    }
  }

  lemma {:induction false} SitesAreDistinct(items: seq<Item>)
    ensures NoDuplicates(Sites(items))
  {
    if items != [] { SitesAreDistinct(items[..|items| - 1]); }
  }

  lemma {:induction false} SiteIsListed(items: seq<Item>, i: nat)
    requires i < |items| && IsValid(items[i])
    ensures SiteOf(items[i]) in Sites(items)
  {
    if i < |items| - 1 { SiteIsListed(items[..|items| - 1], i); }
  }

  lemma {:induction false} ObservedSiteIsListed(items: seq<Item>, site: string, asset: string, tag: string)
    requires Observes(items, site, asset, tag)
    ensures site in Sites(items)
  {
    var i :| 0 <= i < |items| && IsValid(items[i]) && SiteOf(items[i]) == site && items[i].assetId == asset && items[i].tag == tag;
    SiteIsListed(items, i);
  }

  /** Every observed site, asset and tag has its leaf, exactly one where the tree had none, and the leaves
      of everything else are as many as before. */
  lemma OneLeafEach(tree: seq<Node>, items: seq<Item>, site: string, asset: string, tag: string)
    ensures LeafCount(Projected(tree, items), site, asset, tag)
            == if Observes(items, site, asset, tag) then Max(1, LeafCount(tree, site, asset, tag))
               else LeafCount(tree, site, asset, tag)
  {
    SitesAreDistinct(items);
    AddSitesCounts(tree, items, Sites(items), site, asset, tag);
    NamesOfSite(items, site, asset, tag);
    if Observes(items, site, asset, tag) { ObservedSiteIsListed(items, site, asset, tag); }
  }

  /** Neither the order of the items nor their repetition changes which leaves there are. */
  lemma OrderDoesNotMatter(tree: seq<Node>, items: seq<Item>, items': seq<Item>, site: string, asset: string, tag: string)
    requires forall item :: item in items <==> item in items'
    ensures LeafCount(Projected(tree, items), site, asset, tag) == LeafCount(Projected(tree, items'), site, asset, tag)
  {
    OneLeafEach(tree, items, site, asset, tag);
    OneLeafEach(tree, items', site, asset, tag);
    SameObservations(items, items', site, asset, tag);
    SameObservations(items', items, site, asset, tag);
  }

  lemma SameObservations(items: seq<Item>, items': seq<Item>, site: string, asset: string, tag: string)
    requires forall item | item in items :: item in items'
    ensures Observes(items, site, asset, tag) ==> Observes(items', site, asset, tag)
  {
    if Observes(items, site, asset, tag) {
      var i :| 0 <= i < |items| && IsValid(items[i]) && SiteOf(items[i]) == site && items[i].assetId == asset
               && items[i].tag == tag;
      assert items[i] in items';
    }
  }

  // ---------- Idempotence ----------

  lemma {:induction false} CountedIsFound(tree: seq<Node>, site: string, asset: string, tag: string)
    requires LeafCount(tree, site, asset, tag) >= 1
    ensures var kids := Kids(tree, site);
            var assets := Kids(kids, OBSERVED_SOURCES);
            && IndexOf(tree, site) < |tree|
            && IndexOf(kids, OBSERVED_SOURCES) < |kids|
            && IndexOf(assets, asset) < |assets|
            && IndexOf(Kids(assets, asset), LeafId(asset, tag)) < |Kids(assets, asset)|
  {
    CountIsZero(Kids(Kids(Kids(tree, site), OBSERVED_SOURCES), asset), LeafId(asset, tag));
  }

  predicate AllCounted(tree: seq<Node>, site: string, items: seq<Item>) {
    forall i | 0 <= i < |items| :: LeafCount(tree, site, items[i].assetId, items[i].tag) >= 1
  }

  lemma AddItemAgain(tree: seq<Node>, site: string, item: Item)
    requires LeafCount(tree, site, item.assetId, item.tag) >= 1
    ensures var assets := Kids(Kids(tree, site), OBSERVED_SOURCES);
            AddItem(assets, site, item) == assets
  {
    CountedIsFound(tree, site, item.assetId, item.tag);
    PutBack(Kids(Kids(tree, site), OBSERVED_SOURCES), AssetNode(site, item));
  }

  lemma FrontIsCounted(tree: seq<Node>, site: string, items: seq<Item>)
    requires items != [] && AllCounted(tree, site, items)
    ensures AllCounted(tree, site, items[..|items| - 1])
    ensures LeafCount(tree, site, items[|items| - 1].assetId, items[|items| - 1].tag) >= 1
  {
    var front := items[..|items| - 1];
    forall i | 0 <= i < |front| ensures LeafCount(tree, site, front[i].assetId, front[i].tag) >= 1 { assert front[i] == items[i]; }
  }

  lemma {:induction false} AddItemsAgain(tree: seq<Node>, site: string, items: seq<Item>)
    requires AllCounted(tree, site, items)
    ensures var assets := Kids(Kids(tree, site), OBSERVED_SOURCES);
            AddItems(assets, site, items) == assets
  {
    if items != [] {
      var n, assets := |items| - 1, Kids(Kids(tree, site), OBSERVED_SOURCES);
      var item := items[n];
      FrontIsCounted(tree, site, items);
      AddItemsAgain(tree, site, items[..n]);
      AddItemAgain(tree, site, item);
    }
  }

  lemma AddSiteAgain(tree: seq<Node>, site: string, items: seq<Item>)
    requires items != [] && AllCounted(tree, site, items)
    ensures AddSite(tree, site, items) == tree
  {
    AddItemsAgain(tree, site, items);
    CountedIsFound(tree, site, items[0].assetId, items[0].tag);
    PutBack(Kids(tree, site), GroupNode(site));
    PutBack(tree, SiteNode(site));
  }

  lemma {:induction false} ItemsOfAreValid(items: seq<Item>, site: string, i: nat)
    requires i < |ItemsOf(items, site)|
    ensures var item := ItemsOf(items, site)[i];
            Observes(items, site, item.assetId, item.tag)
  {
    var item := ItemsOf(items, site)[i];
    NamesOfSite(items, site, item.assetId, item.tag);
  }

  lemma {:induction false} ListedSiteHasItems(items: seq<Item>, site: string)
    requires site in Sites(items)
    ensures ItemsOf(items, site) != []
  {
    var last := items[|items| - 1];
    if !(IsValid(last) && SiteOf(last) == site) { ListedSiteHasItems(items[..|items| - 1], site); }
  }

  lemma {:induction false} AddSitesAgain(tree: seq<Node>, items: seq<Item>, sites: seq<string>)
    requires forall s | s in sites :: ItemsOf(items, s) != [] && AllCounted(tree, s, ItemsOf(items, s))
    ensures AddSites(tree, items, sites) == tree
  {
    if sites != [] {
      var n := |sites| - 1;
      AddSitesAgain(tree, items, sites[..n]);
      AddSiteAgain(tree, sites[n], ItemsOf(items, sites[n]));
    }
  }

  /** Merging the same items again changes nothing at all. */
  lemma ProjectionIsIdempotent(tree: seq<Node>, items: seq<Item>)
    ensures Projected(Projected(tree, items), items) == Projected(tree, items)
  {
    var merged := Projected(tree, items);
    forall s | s in Sites(items)
      ensures ItemsOf(items, s) != [] && AllCounted(merged, s, ItemsOf(items, s))
    {
      ListedSiteHasItems(items, s);
      EveryItemCounted(tree, items, s);
    }
    AddSitesAgain(merged, items, Sites(items));
  }

  lemma {:induction false} EveryItemCounted(tree: seq<Node>, items: seq<Item>, site: string)
    ensures AllCounted(Projected(tree, items), site, ItemsOf(items, site))
  {
    var merged, own := Projected(tree, items), ItemsOf(items, site);
    forall i | 0 <= i < |own|
      ensures LeafCount(merged, site, own[i].assetId, own[i].tag) >= 1
    {
      ItemsOfAreValid(items, site, i);
      OneLeafEach(tree, items, site, own[i].assetId, own[i].tag);
    }
  }

  // ---------- The configured hierarchy ----------

  ghost predicate OutsideGroupsKept(before: seq<Node>, after: seq<Node>) {
    && |before| <= |after|
    && (forall j | 0 <= j < |before| ::
          if before[j].id == OBSERVED_SOURCES then after[j].id == OBSERVED_SOURCES && after[j].info == before[j].info
          else after[j] == before[j])
    && forall j | |before| <= j < |after| :: after[j].id == OBSERVED_SOURCES
  }

  ghost predicate SiteKept(before: Node, after: Node) {
    before.id == after.id && before.info == after.info && OutsideGroupsKept(before.children, after.children)
  }

  ghost predicate IsNewSite(node: Node) {
    node.info == SiteNode(node.id).info && OutsideGroupsKept([], node.children)
  }

  ghost predicate TreeKept(before: seq<Node>, after: seq<Node>) {
    && |before| <= |after|
    && (forall i | 0 <= i < |before| :: SiteKept(before[i], after[i]))
    && forall i | |before| <= i < |after| :: IsNewSite(after[i])
  }

  lemma KeptTransitively(a: seq<Node>, b: seq<Node>, c: seq<Node>)
    requires OutsideGroupsKept(a, b) && OutsideGroupsKept(b, c)
    ensures OutsideGroupsKept(a, c)
  {
  }

  lemma TreeKeptTransitively(a: seq<Node>, b: seq<Node>, c: seq<Node>)
    requires TreeKept(a, b) && TreeKept(b, c)
    ensures TreeKept(a, c)
  {
    forall i | 0 <= i < |a|
      ensures SiteKept(a[i], c[i])
    {
      assert SiteKept(a[i], b[i]) && SiteKept(b[i], c[i]);
      KeptTransitively(a[i].children, b[i].children, c[i].children);
    }
    forall i | |a| <= i < |c|
      ensures IsNewSite(c[i])
    {
      if i < |b| {
        assert IsNewSite(b[i]) && SiteKept(b[i], c[i]);
        KeptTransitively([], b[i].children, c[i].children);
      }
    }
  }

  lemma AddSiteKeeps(tree: seq<Node>, site: string, items: seq<Item>)
    ensures TreeKept(tree, AddSite(tree, site, items))
  {
    var at, kids := IndexOf(tree, site), Kids(tree, site);
    var grown := AddItems(Kids(kids, OBSERVED_SOURCES), site, items);
    var group := Put(kids, GroupNode(site), grown);
    PutAt(kids, GroupNode(site), grown, IndexOf(kids, OBSERVED_SOURCES));
    assert OutsideGroupsKept(kids, group);
    PutAt(tree, SiteNode(site), group, at);
    var after := AddSite(tree, site, items);
    forall i | 0 <= i < |tree|
      ensures SiteKept(tree[i], after[i])
    {
    }
  }

  lemma {:induction false} AddSitesKeeps(tree: seq<Node>, items: seq<Item>, sites: seq<string>)
    ensures TreeKept(tree, AddSites(tree, items, sites))
  {
    if sites != [] {
      var n := |sites| - 1;
      var before := AddSites(tree, items, sites[..n]);
      AddSitesKeeps(tree, items, sites[..n]);
      AddSiteKeeps(before, sites[n], ItemsOf(items, sites[n]));
      TreeKeptTransitively(tree, before, AddSites(tree, items, sites));
    }
  }

  /** Configured nodes stay where they are: only groups of observed sources are touched or added, and the
      only new roots are observed sites holding nothing but such a group. */
  lemma ConfiguredNodesAreKept(tree: seq<Node>, items: seq<Item>)
    ensures TreeKept(tree, Projected(tree, items))
  {
    AddSitesKeeps(tree, items, Sites(items));
  }

  /** A root whose id is no observed site keeps even its groups. */
  lemma {:induction false} OtherSitesAreUntouched(tree: seq<Node>, items: seq<Item>, sites: seq<string>, i: nat)
    requires i < |tree| && tree[i].id !in sites
    ensures |AddSites(tree, items, sites)| >= |tree| && AddSites(tree, items, sites)[i] == tree[i]
  {
    if sites != [] {
      var n := |sites| - 1;
      var before := AddSites(tree, items, sites[..n]);
      OtherSitesAreUntouched(tree, items, sites[..n], i);
      var kids := Kids(before, sites[n]);
      PutAt(before, SiteNode(sites[n]),
            Put(kids, GroupNode(sites[n]), AddItems(Kids(kids, OBSERVED_SOURCES), sites[n], ItemsOf(items, sites[n]))),
            IndexOf(before, sites[n]));
    }
  }
}
