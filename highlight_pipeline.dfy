/**
 * `Highlights.highlightAndTag` of js/content/common.js. A pass over the
 * tiles derives each tile's store id and groups the target nodes by it; the
 * highlights that the tiles' markup already implies are applied on the way.
 * Then the three providers are asked about the store ids, and their answers
 * are applied group by group in a fixed order of calls.
 *
 * The choice of the node to highlight is taken as given (a tile's `target`,
 * an index into the page's nodes). The three provider calls run together
 * under `Promise.all`; here their answers are inputs.
 */
module HighlightPipeline {
  import opened Wrappers
  import opened JsRuntime
  import opened GameIds
  import opened AppStatus
  import opened Highlights
  import opened SyncedStore

  /**
   * A tile: its own element, its first anchor, the node to highlight, and
   * what its markup shows (`search_result_row`, a `.search_discount span`,
   * the dynamic store's `.ds_owned_flag`, `.ds_wishlist_flag` and
   * `.ds_ignored_flag`).
   */
  datatype Tile = Tile(element: Element, anchor: Option<Element>, target: nat,
                       searchRow: bool, discounted: bool,
                       ownedFlag: bool, wishlistFlag: bool, ignoredFlag: bool)

  function AnchorId(a: Option<Element>, kind: IdKind): Option<int> {
    if a.None? then None
    else match kind
      case AppKind => GetAppid(IdSource.Node(a.value))
      case SubKind => GetSubid(IdSource.Node(a.value))
      case BundleKind => GetBundleid(IdSource.Node(a.value))
  }

  /** `getAppid(node) || getAppid(aNode) || getAppidFromId(node.id)`. */
  function AppidOf(t: Tile): Option<int> {
    GetAppid(IdSource.Node(t.element)).OrElse(AnchorId(t.anchor, AppKind)).OrElse(GetAppidFromId(t.element.id))
  }

  /** `getSubid(node) || getSubid(aNode)`, as written: only a `data-ds-packageid` gives a package id. */
  function SubidOf(t: Tile): Option<int> {
    GetSubid(IdSource.Node(t.element)).OrElse(AnchorId(t.anchor, SubKind))
  }

  /** `getBundleid(node) || getBundleid(aNode)`, as written: only a `data-ds-bundleid` gives a bundle id. */
  function BundleidOf(t: Tile): Option<int> {
    GetBundleid(IdSource.Node(t.element)).OrElse(AnchorId(t.anchor, BundleKind))
  }

  /** The store id built from the three ids: an app id wins over a bundle id, which wins over a package id. */
  function StoreIdFrom(app: Option<int>, bundle: Option<int>, sub: Option<int>): (r: Option<string>)
    ensures app.Some? ==> r == Some("app/" + IntToString(app.value))
    ensures app.None? && bundle.Some? ==> r == Some("bundle/" + IntToString(bundle.value))
    ensures app.None? && bundle.None? && sub.Some? ==> r == Some("sub/" + IntToString(sub.value))
    ensures r.None? <==> app.None? && bundle.None? && sub.None?
  {
    if app.Some? then Some("app/" + IntToString(app.value))
    else if bundle.Some? then Some("bundle/" + IntToString(bundle.value))
    else if sub.Some? then Some("sub/" + IntToString(sub.value))
    else None
  }

  /** A tile's store id. */
  function StoreIdOf(t: Tile): Option<string> {
    StoreIdFrom(AppidOf(t), BundleidOf(t), SubidOf(t))
  }

  /** `trimStoreId` gives back the id the store id was built from, so the inventory is asked about real ids. */
  lemma {:induction false} StoreIdTrims(app: Option<int>, bundle: Option<int>, sub: Option<int>)
    requires StoreIdFrom(app, bundle, sub).Some?
    ensures TrimStoreId(StoreIdFrom(app, bundle, sub).value) == app.OrElse(bundle).OrElse(sub)
  {
    if app.Some? {
      TrimsKind("app", "app/", app.value);
    } else if bundle.Some? {
      TrimsKind("bundle", "bundle/", bundle.value);
    } else {
      TrimsKind("sub", "sub/", sub.value);
    }
  }

  lemma {:induction false} TrimsKind(kind: string, prefix: string, n: int)
    requires '/' !in kind && prefix == kind + "/"
    ensures TrimStoreId(prefix + IntToString(n)) == Some(n)
  {
    TrimStoreIdOfKind(kind, n);
  }

  // ---------------------------------------------------------------------------
  // storeIdsMap

  /** An entry of `storeIdsMap`: a store id and its target nodes. */
  datatype Group = Group(storeId: string, nodes: seq<nat>)

  function GroupKeys(gs: seq<Group>): (r: seq<string>)
    ensures |r| == |gs| && forall k :: 0 <= k < |gs| ==> r[k] == gs[k].storeId
  {
    if gs == [] then [] else GroupKeys(gs[..|gs| - 1]) + [gs[|gs| - 1].storeId]
  }

  /** `storeIdsMap.has` / `get`: where the store id's entry is. */
  function FindGroup(gs: seq<Group>, key: string): (r: Option<nat>)
    ensures r.Some? ==> r.value < |gs| && gs[r.value].storeId == key
    ensures r.None? ==> key !in GroupKeys(gs)
  {
    if gs == [] then None
    else if gs[|gs| - 1].storeId == key then Some(|gs| - 1)
    else FindGroup(gs[..|gs| - 1], key)
  }

  /** `arr.push(node)` on an existing entry, or a new entry at the end of the map. */
  function AddNode(gs: seq<Group>, key: string, node: nat): seq<Group> {
    match FindGroup(gs, key)
    case Some(k) => gs[k := gs[k].(nodes := gs[k].nodes + [node])]
    case None => gs + [Group(key, [node])]
  }

  /** What the pass records of a tile: its store id, if any, and its target node. */
  datatype Entry = Entry(storeId: Option<string>, target: nat)

  function EntryOf(t: Tile): Entry {
    Entry(StoreIdOf(t), t.target)
  }

  function Entries(tiles: seq<Tile>): (es: seq<Entry>)
    ensures |es| == |tiles|
  {
    seq(|tiles|, i requires 0 <= i < |tiles| => EntryOf(tiles[i]))
  }

  /** A tile without a store id is not entered. */
  function AddEntry(gs: seq<Group>, e: Entry): seq<Group> {
    if e.storeId.None? then gs else AddNode(gs, e.storeId.value, e.target)
  }

  /** `storeIdsMap` after the pass over the tiles' entries. */
  function Collect(es: seq<Entry>): seq<Group> {
    if es == [] then [] else AddEntry(Collect(es[..|es| - 1]), es[|es| - 1])
  }

  // The reference definitions the grouping is proved against.

  /** The store ids of the tiles that have one, in tile order. */
  function KeyList(es: seq<Entry>): seq<string> {
    if es == [] then []
    else
      var e := es[|es| - 1];
      KeyList(es[..|es| - 1]) + (if e.storeId.Some? then [e.storeId.value] else [])
  }

  /** The first occurrences in order. */
  function Dedup(s: seq<string>): seq<string> {
    if s == [] then []
    else
      var front := s[..|s| - 1];
      Dedup(front) + (if s[|s| - 1] in front then [] else [s[|s| - 1]])
  }

  /** The targets of the tiles whose store id is `key`, in tile order. */
  function TargetsWith(es: seq<Entry>, key: string): seq<nat> {
    if es == [] then []
    else
      var e := es[|es| - 1];
      TargetsWith(es[..|es| - 1], key) + (if e.storeId == Some(key) then [e.target] else [])
  }

  lemma {:induction false} DedupMembers(s: seq<string>)
    ensures forall x :: x in Dedup(s) <==> x in s
    ensures Distinct(Dedup(s))
    decreases |s|
  {
    if s != [] {
      var front := s[..|s| - 1];
      DedupMembers(front);
      assert s == front + [s[|s| - 1]];
      if s[|s| - 1] !in front {
        DistinctSnoc(Dedup(front), s[|s| - 1]);
      }
    }
  }

  lemma {:induction false} TargetsWithAbsent(es: seq<Entry>, key: string)
    requires key !in KeyList(es)
    ensures TargetsWith(es, key) == []
    decreases |es|
  {
    if es != [] {
      TargetsWithAbsent(es[..|es| - 1], key);
    }
  }

  /** The grouping both `storeIdsMap` and the providers' answers rest on. */
  ghost predicate GroupedAs(gs: seq<Group>, es: seq<Entry>) {
    GroupKeys(gs) == Dedup(KeyList(es))
    && forall k :: 0 <= k < |gs| ==> gs[k].nodes == TargetsWith(es, gs[k].storeId)
  }

  /** Pushing a node onto an entry leaves the keys as they were. */
  lemma {:induction false} KeysKeptByPush(gs: seq<Group>, k: nat, node: nat)
    requires k < |gs|
    ensures GroupKeys(gs[k := gs[k].(nodes := gs[k].nodes + [node])]) == GroupKeys(gs)
  {
    var r := gs[k := gs[k].(nodes := gs[k].nodes + [node])];
    assert forall j :: 0 <= j < |r| ==> GroupKeys(r)[j] == GroupKeys(gs)[j];
  }

  /** A new entry at the end adds its key at the end. */
  lemma {:induction false} KeysGrowByNew(gs: seq<Group>, key: string, node: nat)
    ensures GroupKeys(gs + [Group(key, [node])]) == GroupKeys(gs) + [key]
  {
    var r := gs + [Group(key, [node])];
    assert r[..|r| - 1] == gs;
  }

  lemma {:induction false} AddNodeGroups(gs: seq<Group>, es: seq<Entry>, e: Entry)
    requires GroupedAs(gs, es) && e.storeId.Some?
    ensures GroupedAs(AddNode(gs, e.storeId.value, e.target), es + [e])
  {
    var key := e.storeId.value;
    assert e == Entry(Some(key), e.target);
    DedupMembers(KeyList(es));
    match FindGroup(gs, key)
    case Some(k) => PushedGroups(gs, es, key, e.target, k);
    case None => NewGroup(gs, es, key, e.target);
  }

  /** A store id seen before: its entry gets the node, the others and the key order stay. */
  lemma {:induction false} PushedGroups(gs: seq<Group>, es: seq<Entry>, key: string, node: nat, k: nat)
    requires GroupedAs(gs, es) && Distinct(GroupKeys(gs))
    requires k < |gs| && gs[k].storeId == key
    ensures GroupedAs(gs[k := gs[k].(nodes := gs[k].nodes + [node])], es + [Entry(Some(key), node)])
  {
    var all := es + [Entry(Some(key), node)];
    var r := gs[k := gs[k].(nodes := gs[k].nodes + [node])];
    KeyListSnoc(es, key, node);
    assert key in KeyList(es) by {
      DedupMembers(KeyList(es));
      assert GroupKeys(gs)[k] == key;
    }
    DedupSeen(KeyList(es), key);
    KeysKeptByPush(gs, k, node);
    forall j | 0 <= j < |r| ensures r[j].nodes == TargetsWith(all, r[j].storeId) {
      TargetsWithSnoc(es, key, node, r[j].storeId);
      if j != k {
        assert GroupKeys(gs)[j] != GroupKeys(gs)[k];
      }
    }
  }

  /** A new store id: a new entry at the end. */
  lemma {:induction false} NewGroup(gs: seq<Group>, es: seq<Entry>, key: string, node: nat)
    requires GroupedAs(gs, es) && key !in KeyList(es)
    ensures GroupedAs(gs + [Group(key, [node])], es + [Entry(Some(key), node)])
  {
    var all := es + [Entry(Some(key), node)];
    var r := gs + [Group(key, [node])];
    KeyListSnoc(es, key, node);
    DedupFresh(KeyList(es), key);
    DedupMembers(KeyList(es));
    TargetsWithAbsent(es, key);
    KeysGrowByNew(gs, key, node);
    forall j | 0 <= j < |r| ensures r[j].nodes == TargetsWith(all, r[j].storeId) {
      TargetsWithSnoc(es, key, node, r[j].storeId);
      if j < |gs| {
        assert r[j].storeId != key by { assert GroupKeys(gs)[j] == r[j].storeId; }
      }
    }
  }

  lemma {:induction false} KeyListSnoc(es: seq<Entry>, key: string, node: nat)
    ensures KeyList(es + [Entry(Some(key), node)]) == KeyList(es) + [key]
  {
    var all := es + [Entry(Some(key), node)];
    assert all[..|all| - 1] == es;
  }

  lemma {:induction false} TargetsWithSnoc(es: seq<Entry>, key: string, node: nat, x: string)
    ensures TargetsWith(es + [Entry(Some(key), node)], x)
      == TargetsWith(es, x) + (if x == key then [node] else [])
  {
    var all := es + [Entry(Some(key), node)];
    assert all[..|all| - 1] == es;
  }

  lemma {:induction false} DedupSeen(s: seq<string>, x: string)
    requires x in s
    ensures Dedup(s + [x]) == Dedup(s)
  {
    var t := s + [x];
    assert t[..|t| - 1] == s;
  }

  lemma {:induction false} DedupFresh(s: seq<string>, x: string)
    requires x !in s
    ensures Dedup(s + [x]) == Dedup(s) + [x]
  {
    var t := s + [x];
    assert t[..|t| - 1] == s;
  }

  /**
   * `storeIdsMap` lists each store id once, in the order its first tile
   * came, and holds for each the targets of its tiles in tile order. A tile
   * without a store id is in no group.
   */
  lemma {:induction false} CollectGroups(es: seq<Entry>)
    ensures GroupedAs(Collect(es), es)
    ensures Distinct(GroupKeys(Collect(es)))
    ensures forall key :: key in GroupKeys(Collect(es)) <==> key in KeyList(es)
    decreases |es|
  {
    if es != [] {
      var front := es[..|es| - 1];
      var e := es[|es| - 1];
      CollectGroups(front);
      assert es == front + [e];
      if e.storeId.Some? {
        AddNodeGroups(Collect(front), front, e);
      } else {
        assert KeyList(es) == KeyList(front);
        forall k | 0 <= k < |Collect(es)|
          ensures Collect(es)[k].nodes == TargetsWith(es, Collect(es)[k].storeId)
        {
        }
      }
    }
    DedupMembers(KeyList(es));
  }

  lemma {:induction false} TargetsInRange(es: seq<Entry>, n: nat)
    requires forall i :: 0 <= i < |es| ==> es[i].target < n
    ensures forall k, j :: 0 <= k < |Collect(es)| && 0 <= j < |Collect(es)[k].nodes| ==>
      Collect(es)[k].nodes[j] < n
    decreases |es|
  {
    if es != [] {
      TargetsInRange(es[..|es| - 1], n);
    }
  }

  // ---------------------------------------------------------------------------
  // The plan of calls

  /** One call on one target node. */
  datatype Step = Step(node: nat, call: Call)

  /** The calls on a tile during the pass: the markup's dynamic store flags, then the non-discount hiding. */
  function TileSteps(t: Tile, hasDsInfo: bool): seq<Step> {
    []
    + (if hasDsInfo && t.ownedFlag then [Step(t.target, Owned)] else [])
    + (if hasDsInfo && t.wishlistFlag then [Step(t.target, Wishlist)] else [])
    + (if hasDsInfo && t.ignoredFlag then [Step(t.target, NotInterested)] else [])
    + (if t.searchRow && !t.discounted then [Step(t.target, NonDiscount)] else [])
  }

  function PassSteps(tiles: seq<Tile>, hasDsInfo: bool): seq<Step> {
    if tiles == [] then []
    else PassSteps(tiles[..|tiles| - 1], hasDsInfo) + TileSteps(tiles[|tiles| - 1], hasDsInfo)
  }

  /** The answers the background gives to the three providers' calls. */
  datatype Answers = Answers(
    dynamicStore: Result<map<TrimmedId, seq<string>>>,
    itadConnected: Result<bool>,
    itadCollection: Result<map<string, bool>>,
    inventory: Result<InvAnswer>)

  /** `[dsStatus, itadStatus, invStatus]`; `dsStatus` is undefined (`None`) when the tiles carry dynamic store info. */
  datatype Statuses = Statuses(ds: Option<map<string, DsStatus>>, itad: map<string, ItadStatus>,
                               inv: map<TrimmedId, InvStatus>)

  /**
   * The `Promise.all` of the three calls: it rejects when the dynamic store
   * (if asked) or ITAD rejects; the inventory never rejects.
   */
  function Fetch(storeIds: seq<string>, trimmed: seq<TrimmedId>, hasDsInfo: bool, cfg: Settings, a: Answers)
    : (r: Result<Statuses>)
    ensures r.Err? <==>
      (!hasDsInfo && DynamicStoreStatuses(storeIds, a.dynamicStore).Err?)
      || ItadStatuses(storeIds, a.itadConnected, On(cfg, "highlight_collection"), a.itadCollection).Err?
    ensures r.Ok? ==> r.value.inv == InventoryStatuses(trimmed, a.inventory)
    ensures r.Ok? ==> NoneWaitlisted(r.value)
  {
    var ds := if hasDsInfo then Ok(map[]) else DynamicStoreStatuses(storeIds, a.dynamicStore);
    var itad := ItadStatuses(storeIds, a.itadConnected, On(cfg, "highlight_collection"), a.itadCollection);
    var inv := InventoryStatuses(trimmed, a.inventory);
    if ds.Err? then Err(ds.error)
    else if itad.Err? then Err(itad.error)
    else Ok(Statuses(if hasDsInfo then None else Some(ds.value), itad.value, inv))
  }

  /** ITAD's answers never mark anything as waitlisted. */
  predicate NoneWaitlisted(st: Statuses) {
    forall id :: id in st.itad ==> st.itad[id].waitlisted.None?
  }

  /** What a group's store id is found to be, each flag read with JavaScript truthiness. */
  datatype Flags = Flags(owned: bool, wishlisted: bool, ignored: bool, collected: bool, waitlisted: bool,
                         gift: bool, guestPass: bool, coupon: bool)

  function FlagsOf(st: Statuses, storeId: string, trimmedId: TrimmedId): Flags {
    var ds := if st.ds.Some? && storeId in st.ds.value then Some(st.ds.value[storeId]) else None;
    var itad := if storeId in st.itad then st.itad[storeId] else ItadStatus(None, None);
    var inv := if trimmedId in st.inv then st.inv[trimmedId] else FailedStatus;
    Flags(ds.Some? && ds.value.owned == Some(true), ds.Some? && ds.value.wishlisted, ds.Some? && ds.value.ignored,
          itad.collected == Some(true), itad.waitlisted == Some(true),
          inv.gift, inv.guestPass, inv.coupon == Some(true))
  }

  /** The call at position `k` of the fixed order owned, wishlist, notinterested, collection, waitlist, gift, guestpass, coupon. */
  function CallAt(k: nat): (c: Call)
    requires k < 8
    ensures Rank(c) == k
  {
    match k
    case 0 => Owned
    case 1 => Wishlist
    case 2 => NotInterested
    case 3 => Collection
    case 4 => Waitlist
    case 5 => InvGift
    case 6 => InvGuestpass
    case _ => Coupon
  }

  /** The flag that guards the call at position `k`. */
  function FlagAt(f: Flags, k: nat): bool
    requires k < 8
  {
    match k
    case 0 => f.owned
    case 1 => f.wishlisted
    case 2 => f.ignored
    case 3 => f.collected
    case 4 => f.waitlisted
    case 5 => f.gift
    case 6 => f.guestPass
    case _ => f.coupon
  }

  /** The calls of the first `k` positions whose flags are set. */
  function CallsUpTo(f: Flags, k: nat): seq<Call>
    requires k <= 8
  {
    if k == 0 then [] else CallsUpTo(f, k - 1) + (if FlagAt(f, k - 1) then [CallAt(k - 1)] else [])
  }

  /** The calls on a group, in the code's fixed order. */
  function CallsOf(f: Flags): seq<Call> {
    CallsUpTo(f, 8)
  }

  /** `nodes.forEach(node => …)` for one call. */
  function Each(nodes: seq<nat>, c: Call): (r: seq<Step>)
    ensures |r| == |nodes| && forall j :: 0 <= j < |nodes| ==> r[j] == Step(nodes[j], c)
  {
    if nodes == [] then [] else Each(nodes[..|nodes| - 1], c) + [Step(nodes[|nodes| - 1], c)]
  }

  /** Each call in turn on all of the group's nodes. */
  function EachCall(nodes: seq<nat>, calls: seq<Call>): seq<Step> {
    if calls == [] then [] else EachCall(nodes, calls[..|calls| - 1]) + Each(nodes, calls[|calls| - 1])
  }

  /** The provider phase: the groups in map order, group `k` reading trimmed id `k`. */
  function GroupSteps(gs: seq<Group>, trimmed: seq<TrimmedId>, st: Statuses): seq<Step>
    requires |trimmed| == |gs|
  {
    if gs == [] then []
    else
      var k := |gs| - 1;
      GroupSteps(gs[..k], trimmed[..k], st) + EachCall(gs[k].nodes, CallsOf(FlagsOf(st, gs[k].storeId, trimmed[k])))
  }

  /** `storeIds.map(id => GameId.trimStoreId(id))`. */
  function TrimAll(storeIds: seq<string>): (r: seq<TrimmedId>)
    ensures |r| == |storeIds| && forall k :: 0 <= k < |r| ==> r[k] == TrimStoreId(storeIds[k])
  {
    seq(|storeIds|, k requires 0 <= k < |storeIds| => TrimStoreId(storeIds[k]))
  }

  /** Everything `highlightAndTag` does to the page, in order. */
  function Plan(tiles: seq<Tile>, hasDsInfo: bool, cfg: Settings, a: Answers): seq<Step> {
    var gs := Collect(Entries(tiles));
    var storeIds := GroupKeys(gs);
    var trimmed := TrimAll(storeIds);
    PassSteps(tiles, hasDsInfo)
    + match Fetch(storeIds, trimmed, hasDsInfo, cfg, a)
      case Err(_) => []
      case Ok(st) => GroupSteps(gs, trimmed, st)
  }

  function StepOn(p: Page, cfg: Settings, s: Step): Page {
    if s.node < |p.nodes| then Apply(p, cfg, s.node, s.call) else p
  }

  function ApplyAll(p: Page, cfg: Settings, steps: seq<Step>): (r: Page)
    ensures |r.nodes| == |p.nodes|
  {
    if steps == [] then p else StepOn(ApplyAll(p, cfg, steps[..|steps| - 1]), cfg, steps[|steps| - 1])
  }

  /** `if (flag) nodes.forEach(node => call(node))` on a page. */
  function ApplyIf(p: Page, cfg: Settings, nodes: seq<nat>, flag: bool, c: Call): Page {
    if flag then ApplyAll(p, cfg, Each(nodes, c)) else p
  }

  /** The first `k` of a group's guarded calls, one after the other. */
  function ApplyUpTo(p: Page, cfg: Settings, nodes: seq<nat>, f: Flags, k: nat): Page
    requires k <= 8
  {
    if k == 0 then p else ApplyIf(ApplyUpTo(p, cfg, nodes, f, k - 1), cfg, nodes, FlagAt(f, k - 1), CallAt(k - 1))
  }

  // ---------------------------------------------------------------------------
  // What the plan promises

  lemma {:induction false} ApplyAllSnoc(p: Page, cfg: Settings, steps: seq<Step>, s: Step)
    ensures ApplyAll(p, cfg, steps + [s]) == StepOn(ApplyAll(p, cfg, steps), cfg, s)
  {
    assert (steps + [s])[..|steps|] == steps;
  }

  lemma {:induction false} ApplyAllConcat(p: Page, cfg: Settings, a: seq<Step>, b: seq<Step>)
    ensures ApplyAll(p, cfg, a + b) == ApplyAll(ApplyAll(p, cfg, a), cfg, b)
    decreases |b|
  {
    if b == [] {
      assert a + b == a;
    } else {
      var front := b[..|b| - 1];
      assert a + b == (a + front) + [b[|b| - 1]];
      ApplyAllSnoc(p, cfg, a + front, b[|b| - 1]);
      ApplyAllConcat(p, cfg, a, front);
    }
  }

  /** The guarded calls one after the other are the steps of the group's calls. */
  lemma {:induction false} ApplyUpToSteps(p: Page, cfg: Settings, nodes: seq<nat>, f: Flags, k: nat)
    requires k <= 8
    ensures ApplyUpTo(p, cfg, nodes, f, k) == ApplyAll(p, cfg, EachCall(nodes, CallsUpTo(f, k)))
    decreases k
  {
    if k > 0 {
      ApplyUpToSteps(p, cfg, nodes, f, k - 1);
      var before := CallsUpTo(f, k - 1);
      if FlagAt(f, k - 1) {
        var c := CallAt(k - 1);
        assert CallsUpTo(f, k) == before + [c];
        assert (before + [c])[..|before|] == before;
        ApplyAllConcat(p, cfg, EachCall(nodes, before), Each(nodes, c));
      } else {
        assert CallsUpTo(f, k) == before + [] == before;
      }
    }
  }

  /** The calls a node receives from a list of steps, in order. */
  function Received(steps: seq<Step>, n: nat): seq<Call> {
    if steps == [] then []
    else Received(steps[..|steps| - 1], n) + (if steps[|steps| - 1].node == n then [steps[|steps| - 1].call] else [])
  }

  function Occurrences(nodes: seq<nat>, n: nat): nat {
    if nodes == [] then 0 else Occurrences(nodes[..|nodes| - 1], n) + (if nodes[|nodes| - 1] == n then 1 else 0)
  }

  lemma {:induction false} ReceivedConcat(a: seq<Step>, b: seq<Step>, n: nat)
    ensures Received(a + b, n) == Received(a, n) + Received(b, n)
    decreases |b|
  {
    if b == [] {
      assert a + b == a;
    } else {
      var front := b[..|b| - 1];
      assert (a + b)[..|a + b| - 1] == a + front;
      assert (a + b)[|a + b| - 1] == b[|b| - 1];
      ReceivedConcat(a, front, n);
    }
  }

  lemma {:induction false} ReceivedEach(nodes: seq<nat>, c: Call, n: nat)
    ensures Received(Each(nodes, c), n) == seq(Occurrences(nodes, n), _ => c)
    decreases |nodes|
  {
    if nodes != [] {
      var front := nodes[..|nodes| - 1];
      ReceivedEach(front, c, n);
      assert Each(nodes, c)[..|nodes| - 1] == Each(front, c);
    }
  }

  /** Every node that occurs once in a group receives exactly the group's calls, in the fixed order. */
  lemma {:induction false} GroupNodeReceives(nodes: seq<nat>, calls: seq<Call>, n: nat)
    requires Occurrences(nodes, n) == 1
    ensures Received(EachCall(nodes, calls), n) == calls
    decreases |calls|
  {
    if calls != [] {
      var front := calls[..|calls| - 1];
      var last := calls[|calls| - 1];
      GroupNodeReceives(nodes, front, n);
      assert EachCall(nodes, calls) == EachCall(nodes, front) + Each(nodes, last);
      ReceivedConcat(EachCall(nodes, front), Each(nodes, last), n);
      ReceivedEach(nodes, last, n);
      assert seq(1, _ => last) == [last];
      assert calls == front + [last];
    }
  }

  /** The position of a call in the fixed order owned, wishlist, notinterested, collection, waitlist, gift, guestpass, coupon. */
  function Rank(c: Call): nat {
    match c
    case Owned => 0
    case Wishlist => 1
    case NotInterested => 2
    case Collection => 3
    case Waitlist => 4
    case InvGift => 5
    case InvGuestpass => 6
    case Coupon => 7
    case NonDiscount => 8
  }

  lemma {:induction false} CallsUpToOrdered(f: Flags, k: nat)
    requires k <= 8
    ensures forall a :: 0 <= a < |CallsUpTo(f, k)| ==> Rank(CallsUpTo(f, k)[a]) < k
    ensures forall a, b :: 0 <= a < b < |CallsUpTo(f, k)| ==> Rank(CallsUpTo(f, k)[a]) < Rank(CallsUpTo(f, k)[b])
    ensures forall j :: 0 <= j < k ==> (CallAt(j) in CallsUpTo(f, k) <==> FlagAt(f, j))
    decreases k
  {
    if k > 0 {
      CallsUpToOrdered(f, k - 1);
      var front := CallsUpTo(f, k - 1);
      forall a | 0 <= a < |front| ensures front[a] != CallAt(k - 1) {
      }
      forall j | 0 <= j < k - 1 ensures CallAt(j) != CallAt(k - 1) {
        assert Rank(CallAt(j)) != Rank(CallAt(k - 1));
      }
    }
  }

  /** A group's calls follow the fixed order, each at most once, and are exactly those its flags call for. */
  lemma {:induction false} CallsInFixedOrder(f: Flags)
    ensures forall a, b :: 0 <= a < b < |CallsOf(f)| ==> Rank(CallsOf(f)[a]) < Rank(CallsOf(f)[b])
    ensures (Owned in CallsOf(f) <==> f.owned) && (Wishlist in CallsOf(f) <==> f.wishlisted)
    ensures (NotInterested in CallsOf(f) <==> f.ignored) && (Collection in CallsOf(f) <==> f.collected)
    ensures (Waitlist in CallsOf(f) <==> f.waitlisted) && (InvGift in CallsOf(f) <==> f.gift)
    ensures (InvGuestpass in CallsOf(f) <==> f.guestPass) && (Coupon in CallsOf(f) <==> f.coupon)
    ensures NonDiscount !in CallsOf(f)
  {
    CallsUpToOrdered(f, 8);
    assert CallAt(0) == Owned && FlagAt(f, 0) == f.owned;
    assert CallAt(1) == Wishlist && FlagAt(f, 1) == f.wishlisted;
    assert CallAt(2) == NotInterested && FlagAt(f, 2) == f.ignored;
    assert CallAt(3) == Collection && FlagAt(f, 3) == f.collected;
    assert CallAt(4) == Waitlist && FlagAt(f, 4) == f.waitlisted;
    assert CallAt(5) == InvGift && FlagAt(f, 5) == f.gift;
    assert CallAt(6) == InvGuestpass && FlagAt(f, 6) == f.guestPass;
    assert CallAt(7) == Coupon && FlagAt(f, 7) == f.coupon;
  }

  /** A rejection from the dynamic store or ITAD leaves only the pass's own highlights. */
  lemma {:induction false} RejectionKeepsPassOnly(tiles: seq<Tile>, hasDsInfo: bool, cfg: Settings, a: Answers)
    requires var storeIds := GroupKeys(Collect(Entries(tiles)));
      ItadStatuses(storeIds, a.itadConnected, On(cfg, "highlight_collection"), a.itadCollection).Err?
      || (!hasDsInfo && DynamicStoreStatuses(storeIds, a.dynamicStore).Err?)
    ensures Plan(tiles, hasDsInfo, cfg, a) == PassSteps(tiles, hasDsInfo)
  {
    var storeIds := GroupKeys(Collect(Entries(tiles)));
    var fetched := Fetch(storeIds, TrimAll(storeIds), hasDsInfo, cfg, a);
    assert fetched.Err?;
    assert Plan(tiles, hasDsInfo, cfg, a) == PassSteps(tiles, hasDsInfo) + [];
  }

  /** No group is ever highlighted as waitlisted: ITAD's waitlist answer is always empty. */
  lemma {:induction false} NoWaitlistCalls(gs: seq<Group>, trimmed: seq<TrimmedId>, st: Statuses, n: nat)
    requires |trimmed| == |gs| && NoneWaitlisted(st)
    ensures Waitlist !in Received(GroupSteps(gs, trimmed, st), n)
    decreases |gs|
  {
    if gs != [] {
      var k := |gs| - 1;
      NoWaitlistCalls(gs[..k], trimmed[..k], st, n);
      var f := FlagsOf(st, gs[k].storeId, trimmed[k]);
      assert !f.waitlisted;
      CallsInFixedOrder(f);
      NoCallReceived(gs[k].nodes, CallsOf(f), Waitlist, n);
      ReceivedConcat(GroupSteps(gs[..k], trimmed[..k], st), EachCall(gs[k].nodes, CallsOf(f)), n);
    }
  }

  lemma {:induction false} NoCallReceived(nodes: seq<nat>, calls: seq<Call>, c: Call, n: nat)
    requires c !in calls
    ensures c !in Received(EachCall(nodes, calls), n)
    decreases |calls|
  {
    if calls != [] {
      var front := calls[..|calls| - 1];
      assert c !in front by { assert forall j :: 0 <= j < |front| ==> front[j] == calls[j]; }
      NoCallReceived(nodes, front, c, n);
      ReceivedConcat(EachCall(nodes, front), Each(nodes, calls[|calls| - 1]), n);
      ReceivedEach(nodes, calls[|calls| - 1], n);
    }
  }

  lemma {:induction false} CollectSnoc(es: seq<Entry>, i: nat)
    requires i < |es|
    ensures Collect(es[..i + 1]) == AddEntry(Collect(es[..i]), es[i])
  {
    assert es[..i + 1][..i] == es[..i];
  }

  lemma {:induction false} PassStepsSnoc(tiles: seq<Tile>, hasDsInfo: bool, i: nat)
    requires i < |tiles|
    ensures PassSteps(tiles[..i + 1], hasDsInfo) == PassSteps(tiles[..i], hasDsInfo) + TileSteps(tiles[i], hasDsInfo)
  {
    assert tiles[..i + 1][..i] == tiles[..i];
  }

  lemma {:induction false} GroupStepsSnoc(gs: seq<Group>, trimmed: seq<TrimmedId>, st: Statuses, k: nat)
    requires |trimmed| == |gs| && k < |gs|
    ensures GroupSteps(gs[..k + 1], trimmed[..k + 1], st)
      == GroupSteps(gs[..k], trimmed[..k], st) + EachCall(gs[k].nodes, CallsOf(FlagsOf(st, gs[k].storeId, trimmed[k])))
  {
    assert gs[..k + 1][..k] == gs[..k] && trimmed[..k + 1][..k] == trimmed[..k];
  }

  lemma {:induction false} UpToNext(p0: Page, cfg: Settings, nodes: seq<nat>, f: Flags, m: nat, pm: Page, pn: Page)
    requires m < 8 && pm == ApplyUpTo(p0, cfg, nodes, f, m)
    requires pn == ApplyIf(pm, cfg, nodes, FlagAt(f, m), CallAt(m))
    ensures pn == ApplyUpTo(p0, cfg, nodes, f, m + 1)
  {
  }

  /** Eight guarded calls in the fixed order apply the group's calls. */
  lemma {:induction false} GroupChain(p0: Page, p1: Page, p2: Page, p3: Page, p4: Page, p5: Page, p6: Page, p7: Page, p8: Page,
                   cfg: Settings, nodes: seq<nat>, f: Flags)
    requires p1 == ApplyIf(p0, cfg, nodes, f.owned, Owned)
    requires p2 == ApplyIf(p1, cfg, nodes, f.wishlisted, Wishlist)
    requires p3 == ApplyIf(p2, cfg, nodes, f.ignored, NotInterested)
    requires p4 == ApplyIf(p3, cfg, nodes, f.collected, Collection)
    requires p5 == ApplyIf(p4, cfg, nodes, f.waitlisted, Waitlist)
    requires p6 == ApplyIf(p5, cfg, nodes, f.gift, InvGift)
    requires p7 == ApplyIf(p6, cfg, nodes, f.guestPass, InvGuestpass)
    requires p8 == ApplyIf(p7, cfg, nodes, f.coupon, Coupon)
    ensures p8 == ApplyAll(p0, cfg, EachCall(nodes, CallsOf(f)))
  {
    ChainFront(p0, p1, p2, p3, p4, cfg, nodes, f);
    ChainBack(p0, p4, p5, p6, p7, p8, cfg, nodes, f);
    ApplyUpToSteps(p0, cfg, nodes, f, 8);
  }

  /** The owned, wishlist, notinterested and collection calls are the first four positions. */
  lemma {:induction false} ChainFront(p0: Page, p1: Page, p2: Page, p3: Page, p4: Page,
                   cfg: Settings, nodes: seq<nat>, f: Flags)
    requires p1 == ApplyIf(p0, cfg, nodes, f.owned, Owned)
    requires p2 == ApplyIf(p1, cfg, nodes, f.wishlisted, Wishlist)
    requires p3 == ApplyIf(p2, cfg, nodes, f.ignored, NotInterested)
    requires p4 == ApplyIf(p3, cfg, nodes, f.collected, Collection)
    ensures p4 == ApplyUpTo(p0, cfg, nodes, f, 4)
  {
    UpToNext(p0, cfg, nodes, f, 0, p0, p1);
    UpToNext(p0, cfg, nodes, f, 1, p1, p2);
    UpToNext(p0, cfg, nodes, f, 2, p2, p3);
    UpToNext(p0, cfg, nodes, f, 3, p3, p4);
  }

  /** The waitlist, gift, guestpass and coupon calls are the last four positions. */
  lemma {:induction false} ChainBack(p0: Page, p4: Page, p5: Page, p6: Page, p7: Page, p8: Page,
                   cfg: Settings, nodes: seq<nat>, f: Flags)
    requires p4 == ApplyUpTo(p0, cfg, nodes, f, 4)
    requires p5 == ApplyIf(p4, cfg, nodes, f.waitlisted, Waitlist)
    requires p6 == ApplyIf(p5, cfg, nodes, f.gift, InvGift)
    requires p7 == ApplyIf(p6, cfg, nodes, f.guestPass, InvGuestpass)
    requires p8 == ApplyIf(p7, cfg, nodes, f.coupon, Coupon)
    ensures p8 == ApplyUpTo(p0, cfg, nodes, f, 8)
  {
    UpToNext(p0, cfg, nodes, f, 4, p4, p5);
    UpToNext(p0, cfg, nodes, f, 5, p5, p6);
    UpToNext(p0, cfg, nodes, f, 6, p6, p7);
    UpToNext(p0, cfg, nodes, f, 7, p7, p8);
  }

  // ---------------------------------------------------------------------------
  // The highlighter, its nodes changed in place

  class Highlighter {
    var nodes: seq<Node>
    var highlightCss: bool   // highlightCssLoaded
    var tagCss: bool         // tagCssLoaded
    const cfg: Settings

    function State(): Page
      reads this
    {
      Page(nodes, highlightCss, tagCss)
    }

    constructor (page: seq<Node>, settings: Settings)
      ensures State() == Page(page, false, false) && cfg == settings
    {
      nodes, highlightCss, tagCss := page, false, false;
      cfg := settings;
    }

    method AddTagTo(i: nat, tag: string)
      requires i < |nodes|
      modifies this
      ensures State() == AddTagAsWritten(old(State()), cfg, i, tag)
    {
      tagCss := true;
      var box := if nodes[i].tags.Some? then nodes[i].tags.value else TagBox(On(cfg, "tag_short"), []);
      box := box.(badges := box.badges + [tag]);
      nodes := nodes[i := nodes[i].(tags := Some(box))];
    }

    method HighlightItemAt(i: nat, name: string)
      requires i < |nodes|
      modifies this
      ensures State() == HighlightItem(old(State()), cfg, i, name)
    {
      nodes := nodes[i := nodes[i].(classes := nodes[i].classes + {"es_highlight_checked"})];
      if On(cfg, "highlight_" + name) {
        nodes := nodes[i := nodes[i].(classes := nodes[i].classes + {"es_highlighted", HighlightClass(name)})];
        if !(On(cfg, "highlight_excludef2p") && nodes[i].freeToPlay) {
          highlightCss := true;
        }
      }
      if On(cfg, "tag_" + name) {
        AddTagTo(i, name);
      }
    }

    method HideAt(i: nat, hideKey: string)
      requires i < |nodes|
      modifies this
      ensures State() == HideIf(old(State()), cfg, i, hideKey)
    {
      if On(cfg, hideKey) && nodes[i].inResultList {
        nodes := nodes[i := nodes[i].(hidden := true)];
      }
    }

    /** `highlightOwned`, `highlightWishlist`, … and `highlightNonDiscounts`. */
    method ApplyCall(i: nat, c: Call)
      requires i < |nodes|
      modifies this
      ensures State() == Apply(old(State()), cfg, i, c)
    {
      match c
      case NonDiscount =>
        if On(cfg, "highlight_notdiscounted") {
          nodes := nodes[i := nodes[i].(hidden := true)];
        }
      case Owned =>
        HideAt(i, "hide_owned");
        HighlightItemAt(i, "owned");
      case NotInterested =>
        HideAt(i, "hide_ignored");
        HighlightItemAt(i, "notinterested");
      case _ =>
        HighlightItemAt(i, TypeOf(c));
    }

    /** `nodes.forEach(node => …)`. */
    method ForEach(targets: seq<nat>, c: Call)
      requires forall j :: 0 <= j < |targets| ==> targets[j] < |nodes|
      modifies this
      ensures State() == ApplyAll(old(State()), cfg, Each(targets, c))
    {
      ghost var start := State();
      var j := 0;
      while j < |targets|
        invariant 0 <= j <= |targets|
        invariant State() == ApplyAll(start, cfg, Each(targets[..j], c))
      {
        CallOn(targets, j, c, start);
        j := j + 1;
      }
      assert targets[..j] == targets;
    }

    /** One turn of `forEach`: the call on the `j`-th target. */
    method CallOn(targets: seq<nat>, j: nat, c: Call, ghost start: Page)
      requires j < |targets| && targets[j] < |nodes|
      requires State() == ApplyAll(start, cfg, Each(targets[..j], c))
      modifies this
      ensures |nodes| == |old(nodes)|
      ensures State() == ApplyAll(start, cfg, Each(targets[..j + 1], c))
    {
      assert targets[..j + 1] == targets[..j] + [targets[j]];
      ApplyAllSnoc(start, cfg, Each(targets[..j], c), Step(targets[j], c));
      ApplyCall(targets[j], c);
    }

    /** `if (flag) call(node)`, extending the steps made since `start`. */
    method CallIf(i: nat, flag: bool, c: Call, ghost start: Page, ghost done: seq<Step>)
      requires i < |nodes|
      requires State() == ApplyAll(start, cfg, done)
      modifies this
      ensures |nodes| == |old(nodes)|
      ensures State() == ApplyAll(start, cfg, done + (if flag then [Step(i, c)] else []))
    {
      if flag {
        ApplyAllSnoc(start, cfg, done, Step(i, c));
        ApplyCall(i, c);
      } else {
        assert done + [] == done;
      }
    }

    /** The markup's highlights on one tile of the pass. */
    method MarkTile(t: Tile, hasDsInfo: bool)
      requires t.target < |nodes|
      modifies this
      ensures State() == ApplyAll(old(State()), cfg, TileSteps(t, hasDsInfo))
    {
      var i := t.target;
      ghost var done: seq<Step> := [];
      CallIf(i, hasDsInfo && t.ownedFlag, Owned, old(State()), done);
      done := done + (if hasDsInfo && t.ownedFlag then [Step(i, Owned)] else []);
      CallIf(i, hasDsInfo && t.wishlistFlag, Wishlist, old(State()), done);
      done := done + (if hasDsInfo && t.wishlistFlag then [Step(i, Wishlist)] else []);
      CallIf(i, hasDsInfo && t.ignoredFlag, NotInterested, old(State()), done);
      done := done + (if hasDsInfo && t.ignoredFlag then [Step(i, NotInterested)] else []);
      CallIf(i, t.searchRow && !t.discounted, NonDiscount, old(State()), done);
      done := done + (if t.searchRow && !t.discounted then [Step(i, NonDiscount)] else []);
    }

    /** The provider calls on one group, in the fixed order: the dynamic store's, ITAD's, then the inventory's. */
    method HighlightGroup(g: Group, f: Flags)
      requires forall j :: 0 <= j < |g.nodes| ==> g.nodes[j] < |nodes|
      modifies this
      ensures State() == ApplyAll(old(State()), cfg, EachCall(g.nodes, CallsOf(f)))
    {
      ghost var p0 := State();
      RunIf(g.nodes, f.owned, Owned);
      ghost var p1 := State();
      RunIf(g.nodes, f.wishlisted, Wishlist);
      ghost var p2 := State();
      RunIf(g.nodes, f.ignored, NotInterested);
      ghost var p3 := State();
      RunIf(g.nodes, f.collected, Collection);
      ghost var p4 := State();
      RunIf(g.nodes, f.waitlisted, Waitlist);
      ghost var p5 := State();
      RunIf(g.nodes, f.gift, InvGift);
      ghost var p6 := State();
      RunIf(g.nodes, f.guestPass, InvGuestpass);
      ghost var p7 := State();
      RunIf(g.nodes, f.coupon, Coupon);
      GroupChain(p0, p1, p2, p3, p4, p5, p6, p7, State(), cfg, g.nodes, f);
    }

    /** `if (flag) nodes.forEach(node => call(node))`. */
    method RunIf(targets: seq<nat>, flag: bool, c: Call)
      requires forall j :: 0 <= j < |targets| ==> targets[j] < |nodes|
      modifies this
      ensures |nodes| == |old(nodes)|
      ensures State() == ApplyIf(old(State()), cfg, targets, flag, c)
    {
      if flag {
        ForEach(targets, c);
      }
    }

    /** The pass over the tiles: `storeIdsMap` is built and the markup's highlights are applied. */
    method PassTiles(tiles: seq<Tile>, hasDsInfo: bool) returns (gs: seq<Group>)
      requires forall i :: 0 <= i < |tiles| ==> tiles[i].target < |nodes|
      modifies this
      ensures gs == Collect(Entries(tiles))
      ensures State() == ApplyAll(old(State()), cfg, PassSteps(tiles, hasDsInfo))
    {
      gs := [];
      var i := 0;
      while i < |tiles|
        invariant 0 <= i <= |tiles|
        invariant |nodes| == |old(nodes)|
        invariant gs == Collect(Entries(tiles)[..i])
        invariant State() == ApplyAll(old(State()), cfg, PassSteps(tiles[..i], hasDsInfo))
      {
        gs := PassTile(tiles, i, hasDsInfo, gs, old(State()));
        i := i + 1;
      }
      assert tiles[..i] == tiles && Entries(tiles)[..i] == Entries(tiles);
    }

    /** One turn of the pass: tile `i`'s entry and its markup's highlights. */
    method PassTile(tiles: seq<Tile>, i: nat, hasDsInfo: bool, gs: seq<Group>, ghost start: Page)
      returns (gs': seq<Group>)
      requires i < |tiles| && tiles[i].target < |nodes|
      requires gs == Collect(Entries(tiles)[..i])
      requires State() == ApplyAll(start, cfg, PassSteps(tiles[..i], hasDsInfo))
      modifies this
      ensures |nodes| == |old(nodes)|
      ensures gs' == Collect(Entries(tiles)[..i + 1])
      ensures State() == ApplyAll(start, cfg, PassSteps(tiles[..i + 1], hasDsInfo))
    {
      CollectSnoc(Entries(tiles), i);
      PassStepsSnoc(tiles, hasDsInfo, i);
      gs' := GroupTile(gs, tiles[i]);
      MarkTile(tiles[i], hasDsInfo);
      ApplyAllConcat(start, cfg, PassSteps(tiles[..i], hasDsInfo), TileSteps(tiles[i], hasDsInfo));
    }

    /** The loop over `storeIdsMap` once the providers have answered: group `k` reads trimmed id `k`. */
    method HighlightGroups(gs: seq<Group>, trimmed: seq<TrimmedId>, st: Statuses)
      requires |trimmed| == |gs|
      requires forall k, j :: 0 <= k < |gs| && 0 <= j < |gs[k].nodes| ==> gs[k].nodes[j] < |nodes|
      modifies this
      ensures State() == ApplyAll(old(State()), cfg, GroupSteps(gs, trimmed, st))
    {
      var k := 0;
      while k < |gs|
        invariant 0 <= k <= |gs|
        invariant |nodes| == |old(nodes)|
        invariant State() == ApplyAll(old(State()), cfg, GroupSteps(gs[..k], trimmed[..k], st))
      {
        HighlightGroupAt(gs, trimmed, st, k, old(State()));
        k := k + 1;
      }
      assert gs[..k] == gs && trimmed[..k] == trimmed;
    }

    /** One turn of the loop: group `k` gets the calls its flags call for. */
    method HighlightGroupAt(gs: seq<Group>, trimmed: seq<TrimmedId>, st: Statuses, k: nat, ghost start: Page)
      requires |trimmed| == |gs| && k < |gs|
      requires forall j :: 0 <= j < |gs[k].nodes| ==> gs[k].nodes[j] < |nodes|
      requires State() == ApplyAll(start, cfg, GroupSteps(gs[..k], trimmed[..k], st))
      modifies this
      ensures |nodes| == |old(nodes)|
      ensures State() == ApplyAll(start, cfg, GroupSteps(gs[..k + 1], trimmed[..k + 1], st))
    {
      GroupStepsSnoc(gs, trimmed, st, k);
      var flags := FlagsOf(st, gs[k].storeId, trimmed[k]);
      HighlightGroup(gs[k], flags);
      ApplyAllConcat(start, cfg, GroupSteps(gs[..k], trimmed[..k], st), EachCall(gs[k].nodes, CallsOf(flags)));
    }

    /**
     * `highlightAndTag(tiles, hasDsInfo)`: the pass over the tiles, then the
     * providers' answers group by group. A rejected `Promise.all` ends the
     * call after the pass.
     */
    method HighlightAndTag(tiles: seq<Tile>, hasDsInfo: bool, answers: Answers) returns (r: Result<()>)
      requires forall i :: 0 <= i < |tiles| ==> tiles[i].target < |nodes|
      modifies this
      ensures var storeIds := GroupKeys(Collect(Entries(tiles)));
        r.Ok? <==> Fetch(storeIds, TrimAll(storeIds), hasDsInfo, cfg, answers).Ok?
      ensures State() == ApplyAll(old(State()), cfg, Plan(tiles, hasDsInfo, cfg, answers))
    {
      var gs := PassTiles(tiles, hasDsInfo);
      ghost var es := Entries(tiles);
      forall j | 0 <= j < |es| ensures es[j].target < |nodes| {
        assert es[j] == EntryOf(tiles[j]);
      }
      TargetsInRange(es, |nodes|);

      var storeIds := GroupKeys(gs);
      var trimmed := TrimAll(storeIds);
      var statuses := Fetch(storeIds, trimmed, hasDsInfo, cfg, answers);
      if statuses.Err? {
        assert PassSteps(tiles, hasDsInfo) + [] == PassSteps(tiles, hasDsInfo);
        return Err(statuses.error);
      }
      ghost var pass := State();
      HighlightGroups(gs, trimmed, statuses.value);
      ApplyAllConcat(old(State()), cfg, PassSteps(tiles, hasDsInfo), GroupSteps(gs, trimmed, statuses.value));
      r := Ok(());
    }
  }

  /** One tile's entry of `storeIdsMap`: its store id is derived and its target appended under it. */
  method GroupTile(gs: seq<Group>, t: Tile) returns (gs': seq<Group>)
    ensures gs' == AddEntry(gs, EntryOf(t))
  {
    gs' := gs;
    var storeId := StoreIdOf(t);
    if storeId.Some? {
      var found := FindGroup(gs, storeId.value);
      if found.Some? {
        var k := found.value;
        gs' := gs[k := gs[k].(nodes := gs[k].nodes + [t.target])];
      } else {
        gs' := gs + [Group(storeId.value, [t.target])];
      }
    }
  }
}
