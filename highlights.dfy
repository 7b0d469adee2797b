/**
 * The node operations of `Highlights` in js/content/common.js: marking a
 * target node with the `es_highlighted_<type>` classes, adding tag badges,
 * hiding rows, and the precedence of highlight colours that follows from the
 * order in which the stylesheet rules are emitted.
 *
 * A page is the sequence of target nodes plus the two module flags that
 * record whether the highlight and the tag stylesheets were added. Settings
 * are read as `SyncedStorage.get` reads them: the cache, then the defaults.
 */
module Highlights {
  import opened Wrappers
  import opened SyncedStore

  /** `highlightTypes`: the later a type appears, the higher its precedence. */
  const HighlightTypes: seq<string> :=
    ["notinterested", "waitlist", "wishlist", "collection", "owned", "coupon", "inv_guestpass", "inv_gift"]

  /** The settings snapshot the highlighter reads. */
  datatype Settings = Settings(store: Store, defaults: map<string, JsValue>)

  /** `SyncedStorage.get(key)` is truthy. */
  predicate On(cfg: Settings, key: string) {
    Truthy(Get(cfg.store, cfg.defaults, key))
  }

  /** A `.es_tags` container, with the `es_tags_short` class or not, and the tag names of its badges in order. */
  datatype TagBox = TagBox(short: bool, badges: seq<string>)

  /**
   * A target node: its class list, its tag container, whether `display` was
   * set to `none`, whether it lies inside a `.search_result_row` or a
   * `.tab_item`, and whether its markup matches one of the free-to-play
   * patterns `highlightNode` tests.
   */
  datatype Node = Node(classes: set<string>, tags: Option<TagBox>, hidden: bool, inResultList: bool, freeToPlay: bool)

  /** The target nodes and whether `es_highlight_styles` and `es_tag_styles` were added. */
  datatype Page = Page(nodes: seq<Node>, highlightCss: bool, tagCss: bool)

  function HighlightClass(name: string): string {
    "es_highlighted_" + name
  }

  function Badges(n: Node): seq<string> {
    if n.tags.None? then [] else n.tags.value.badges
  }

  function WithNode(p: Page, i: nat, n: Node): Page
    requires i < |p.nodes|
  {
    p.(nodes := p.nodes[i := n])
  }

  // ---------------------------------------------------------------------------
  // addTag

  /** The container `addTag` writes into: the node's own, or a fresh one whose class follows `tag_short`. */
  function BoxFor(cfg: Settings, n: Node): TagBox {
    if n.tags.Some? then n.tags.value else TagBox(On(cfg, "tag_short"), [])
  }

  /**
   * `addTag` as written. The guard queries the selector `es_tag_<tag>`
   * without the leading '.', a tag name no element has, so the badge is
   * appended even when the container already shows it.
   */
  function AddTagAsWritten(p: Page, cfg: Settings, i: nat, tag: string): (r: Page)
    requires i < |p.nodes|
    ensures |r.nodes| == |p.nodes| && r.tagCss && r.highlightCss == p.highlightCss
    ensures Badges(r.nodes[i]) == Badges(p.nodes[i]) + [tag]
    ensures forall j :: 0 <= j < |p.nodes| && j != i ==> r.nodes[j] == p.nodes[j]
  {
    var box := BoxFor(cfg, p.nodes[i]);
    WithNode(p, i, p.nodes[i].(tags := Some(box.(badges := box.badges + [tag])))).(tagCss := true)
  }

  /** `addTag` with the guard reading `.es_tag_<tag>`: a badge is added only when none for the tag is there. */
  function AddTag(p: Page, cfg: Settings, i: nat, tag: string): (r: Page)
    requires i < |p.nodes|
    ensures |r.nodes| == |p.nodes|
  {
    var box := BoxFor(cfg, p.nodes[i]);
    var badges := if tag in box.badges then box.badges else box.badges + [tag];
    WithNode(p, i, p.nodes[i].(tags := Some(box.(badges := badges)))).(tagCss := true)
  }

  /** What `addTag` changes: the tag stylesheet flag and node `i`'s badges, which gain the tag unless they show it. */
  lemma {:induction false} AddTagEffect(p: Page, cfg: Settings, i: nat, tag: string)
    requires i < |p.nodes|
    ensures var r := AddTag(p, cfg, i, tag);
      r.tagCss && r.highlightCss == p.highlightCss
      && (tag in Badges(p.nodes[i]) ==> Badges(r.nodes[i]) == Badges(p.nodes[i]))
      && (tag !in Badges(p.nodes[i]) ==> Badges(r.nodes[i]) == Badges(p.nodes[i]) + [tag])
      && r.nodes[i].tags.Some? && r.nodes[i].classes == p.nodes[i].classes
      && r.nodes[i].hidden == p.nodes[i].hidden
      && forall j :: 0 <= j < |p.nodes| && j != i ==> r.nodes[j] == p.nodes[j]
  {
  }

  /** As written, each call adds a badge: tagging a node twice shows the tag twice. */
  lemma {:induction false} TaggingTwiceDuplicates(p: Page, cfg: Settings, i: nat, tag: string)
    requires i < |p.nodes|
    ensures var b := Badges(AddTagAsWritten(AddTagAsWritten(p, cfg, i, tag), cfg, i, tag).nodes[i]);
      b == Badges(p.nodes[i]) + [tag, tag] && !Distinct(b)
  {
    var b := Badges(AddTagAsWritten(AddTagAsWritten(p, cfg, i, tag), cfg, i, tag).nodes[i]);
    assert b[|b| - 2] == b[|b| - 1];
  }

  /** With the guard fixed, a node shows each tag at most once, however often it is tagged. */
  lemma {:induction false} TagsStayDistinct(p: Page, cfg: Settings, i: nat, tag: string)
    requires i < |p.nodes| && Distinct(Badges(p.nodes[i]))
    ensures Distinct(Badges(AddTag(p, cfg, i, tag).nodes[i]))
    ensures tag in Badges(AddTag(p, cfg, i, tag).nodes[i])
    ensures AddTag(AddTag(p, cfg, i, tag), cfg, i, tag) == AddTag(p, cfg, i, tag)
  {
    var b := Badges(p.nodes[i]);
    AddTagEffect(p, cfg, i, tag);
    AddTagEffect(AddTag(p, cfg, i, tag), cfg, i, tag);
    if tag !in b {
      DistinctSnoc(b, tag);
    }
  }

  lemma {:induction false} DistinctSnoc(s: seq<string>, x: string)
    requires Distinct(s) && x !in s
    ensures Distinct(s + [x])
  {
    var t := s + [x];
    forall a, b | 0 <= a < b < |t| ensures t[a] != t[b] {
      if b == |s| {
        assert t[a] == s[a];
      }
    }
  }

  // ---------------------------------------------------------------------------
  // highlightNode and highlightItem

  /**
   * `highlightNode` reduced to what the model keeps: unless
   * `highlight_excludef2p` is on and the node looks free to play, the
   * highlight stylesheet is added once.
   */
  function HighlightNode(p: Page, cfg: Settings, i: nat): Page
    requires i < |p.nodes|
  {
    if On(cfg, "highlight_excludef2p") && p.nodes[i].freeToPlay then p else p.(highlightCss := true)
  }

  /**
   * `highlightItem(node, name)`: the node is always marked checked; with
   * `highlight_<name>` on it gets `es_highlighted` and
   * `es_highlighted_<name>`; with `tag_<name>` on it gets a tag badge,
   * through `addTag` as written, so a node tagged again shows the badge again.
   */
  function HighlightItem(p: Page, cfg: Settings, i: nat, name: string): (r: Page)
    requires i < |p.nodes|
    ensures |r.nodes| == |p.nodes|
  {
    var n := p.nodes[i];
    var checked := WithNode(p, i, n.(classes := n.classes + {"es_highlight_checked"}));
    var marked :=
      if On(cfg, "highlight_" + name) then
        var c := checked.nodes[i];
        HighlightNode(WithNode(checked, i, c.(classes := c.classes + {"es_highlighted", HighlightClass(name)})), cfg, i)
      else checked;
    if On(cfg, "tag_" + name) then AddTagAsWritten(marked, cfg, i, name) else marked
  }

  /** What `highlightItem` does to node `i`, and that it leaves every other node alone. */
  lemma {:induction false} HighlightItemEffect(p: Page, cfg: Settings, i: nat, name: string)
    requires i < |p.nodes|
    ensures var r := HighlightItem(p, cfg, i, name);
      (forall j :: 0 <= j < |p.nodes| && j != i ==> r.nodes[j] == p.nodes[j])
      && r.nodes[i].classes == p.nodes[i].classes + {"es_highlight_checked"}
        + (if On(cfg, "highlight_" + name) then {"es_highlighted", HighlightClass(name)} else {})
      && (r.tagCss <==> p.tagCss || On(cfg, "tag_" + name))
      && (On(cfg, "tag_" + name) ==> r.nodes[i].tags.Some? && Badges(r.nodes[i]) == Badges(p.nodes[i]) + [name])
      && (!On(cfg, "tag_" + name) ==> r.nodes[i].tags == p.nodes[i].tags)
      && r.nodes[i].hidden == p.nodes[i].hidden
      && (r.highlightCss <==>
            (p.highlightCss || (On(cfg, "highlight_" + name) && !(On(cfg, "highlight_excludef2p") && p.nodes[i].freeToPlay))))
  {
    var n := p.nodes[i];
    var checked := WithNode(p, i, n.(classes := n.classes + {"es_highlight_checked"}));
    var marked :=
      if On(cfg, "highlight_" + name) then
        var c := checked.nodes[i];
        HighlightNode(WithNode(checked, i, c.(classes := c.classes + {"es_highlighted", HighlightClass(name)})), cfg, i)
      else checked;
    assert Badges(marked.nodes[i]) == Badges(p.nodes[i]);
  }

  /** `highlightOwned` and `highlightNotInterested` first hide a result-list row when `hideKey` is on. */
  function HideIf(p: Page, cfg: Settings, i: nat, hideKey: string): (r: Page)
    requires i < |p.nodes|
    ensures |r.nodes| == |p.nodes|
    ensures r.nodes[i].hidden <==> p.nodes[i].hidden || (On(cfg, hideKey) && p.nodes[i].inResultList)
    ensures r.nodes[i].classes == p.nodes[i].classes && r.highlightCss == p.highlightCss
    ensures forall j :: 0 <= j < |p.nodes| && j != i ==> r.nodes[j] == p.nodes[j]
  {
    if On(cfg, hideKey) && p.nodes[i].inResultList then WithNode(p, i, p.nodes[i].(hidden := true)) else p
  }

  /** The calls `highlightAndTag` makes on a node. */
  datatype Call = Owned | Wishlist | NotInterested | Collection | Waitlist | InvGift | InvGuestpass | Coupon | NonDiscount

  /** The highlight type a call passes to `highlightItem`. */
  function TypeOf(c: Call): string
    requires c != NonDiscount
  {
    match c
    case Owned => "owned"
    case Wishlist => "wishlist"
    case NotInterested => "notinterested"
    case Collection => "collection"
    case Waitlist => "waitlist"
    case InvGift => "inv_gift"
    case InvGuestpass => "inv_guestpass"
    case Coupon => "coupon"
  }

  /** `highlightOwned`, `highlightWishlist`, … and `highlightNonDiscounts` on node `i`. */
  function Apply(p: Page, cfg: Settings, i: nat, c: Call): (r: Page)
    requires i < |p.nodes|
    ensures |r.nodes| == |p.nodes|
  {
    match c
    case NonDiscount =>
      if On(cfg, "highlight_notdiscounted") then WithNode(p, i, p.nodes[i].(hidden := true)) else p
    case Owned => HighlightItem(HideIf(p, cfg, i, "hide_owned"), cfg, i, "owned")
    case NotInterested => HighlightItem(HideIf(p, cfg, i, "hide_ignored"), cfg, i, "notinterested")
    case _ => HighlightItem(p, cfg, i, TypeOf(c))
  }

  /** A call changes only its own node, and never takes a class, a hiding or the stylesheet away. */
  lemma {:induction false} ApplyMonotone(p: Page, cfg: Settings, i: nat, c: Call)
    requires i < |p.nodes|
    ensures var r := Apply(p, cfg, i, c);
      (forall j :: 0 <= j < |p.nodes| && j != i ==> r.nodes[j] == p.nodes[j])
      && p.nodes[i].classes <= r.nodes[i].classes
      && (p.nodes[i].hidden ==> r.nodes[i].hidden)
      && (p.highlightCss ==> r.highlightCss)
  {
    match c
    case NonDiscount =>
    case Owned =>
      HighlightItemEffect(HideIf(p, cfg, i, "hide_owned"), cfg, i, "owned");
    case NotInterested =>
      HighlightItemEffect(HideIf(p, cfg, i, "hide_ignored"), cfg, i, "notinterested");
    case _ =>
      HighlightItemEffect(p, cfg, i, TypeOf(c));
  }

  /** Marked highlights survive any later call. */
  lemma {:induction false} ApplyKeepsHighlights(p: Page, cfg: Settings, i: nat, c: Call, j: nat, name: string)
    requires i < |p.nodes| && j < |p.nodes| && HighlightClass(name) in p.nodes[j].classes
    ensures HighlightClass(name) in Apply(p, cfg, i, c).nodes[j].classes
  {
    ApplyMonotone(p, cfg, i, c);
  }

  /** A node keeps being picked up by the rescan, `:not(.es_highlighted)`, until a highlight setting is on. */
  predicate Rescanned(n: Node) {
    "es_highlighted" !in n.classes
  }

  lemma {:induction false} RescanStopsOnHighlight(p: Page, cfg: Settings, i: nat, name: string)
    requires i < |p.nodes|
    ensures Rescanned(HighlightItem(p, cfg, i, name).nodes[i]) <==> Rescanned(p.nodes[i]) && !On(cfg, "highlight_" + name)
  {
    HighlightItemEffect(p, cfg, i, name);
  }

  // ---------------------------------------------------------------------------
  // Precedence

  /**
   * The stylesheet cascade: the rules for the types of `sheet` have the same
   * specificity and are emitted in order, so the last one whose class the
   * node carries decides its colour. The result is that rule's index.
   */
  function Cascade(sheet: seq<string>, classes: set<string>): (r: Option<nat>)
    ensures r.Some? ==> r.value < |sheet| && HighlightClass(sheet[r.value]) in classes
    ensures r.Some? ==> forall j :: r.value < j < |sheet| ==> HighlightClass(sheet[j]) !in classes
    ensures r.None? ==> forall j :: 0 <= j < |sheet| ==> HighlightClass(sheet[j]) !in classes
  {
    if sheet == [] then None
    else if HighlightClass(sheet[|sheet| - 1]) in classes then Some(|sheet| - 1)
    else Cascade(sheet[..|sheet| - 1], classes)
  }

  /** The type whose colour node `i` shows, if the highlight stylesheet was added. */
  function EffectiveHighlight(p: Page, i: nat): (r: Option<string>)
    requires i < |p.nodes|
    ensures r.Some? ==> p.highlightCss && r.value in HighlightTypes && HighlightClass(r.value) in p.nodes[i].classes
  {
    if !p.highlightCss then None
    else match Cascade(HighlightTypes, p.nodes[i].classes)
      case None => None
      case Some(k) => Some(HighlightTypes[k])
  }

  /** Of two types a node carries, the one later in `highlightTypes` decides: owned beats wishlist. */
  lemma {:induction false} LaterTypeWins(p: Page, i: nat, lo: nat, hi: nat)
    requires i < |p.nodes| && lo < hi < |HighlightTypes| && p.highlightCss
    requires HighlightClass(HighlightTypes[lo]) in p.nodes[i].classes
    requires HighlightClass(HighlightTypes[hi]) in p.nodes[i].classes
    ensures EffectiveHighlight(p, i).Some?
    ensures EffectiveHighlight(p, i) != Some(HighlightTypes[lo])
  {
    var k := Cascade(HighlightTypes, p.nodes[i].classes);
    assert k.Some? && k.value >= hi;
    assert forall a, b :: 0 <= a < b < |HighlightTypes| ==> HighlightTypes[a] != HighlightTypes[b];
  }

  /** Owned beats wishlist and not-interested, as the comment above `highlightTypes` promises. */
  lemma {:induction false} OwnedBeatsWishlist(p: Page, i: nat)
    requires i < |p.nodes| && p.highlightCss
    requires HighlightClass("owned") in p.nodes[i].classes
    requires HighlightClass("wishlist") in p.nodes[i].classes || HighlightClass("notinterested") in p.nodes[i].classes
    ensures EffectiveHighlight(p, i).Some?
    ensures EffectiveHighlight(p, i) != Some("wishlist") && EffectiveHighlight(p, i) != Some("notinterested")
  {
    assert HighlightTypes[4] == "owned" && HighlightTypes[2] == "wishlist" && HighlightTypes[0] == "notinterested";
    if HighlightClass("wishlist") in p.nodes[i].classes {
      LaterTypeWins(p, i, 2, 4);
    }
    if HighlightClass("notinterested") in p.nodes[i].classes {
      LaterTypeWins(p, i, 0, 4);
    }
  }

  /**
   * A highlight that is switched on shows at least that type's precedence
   * once the stylesheet is in place: a later call of a lower type never
   * changes the colour back.
   */
  lemma {:induction false} HighlightAtLeast(p: Page, cfg: Settings, i: nat, k: nat)
    requires i < |p.nodes| && k < |HighlightTypes|
    requires On(cfg, "highlight_" + HighlightTypes[k])
    requires p.highlightCss || !(On(cfg, "highlight_excludef2p") && p.nodes[i].freeToPlay)
    ensures var r := HighlightItem(p, cfg, i, HighlightTypes[k]);
      r.highlightCss && Cascade(HighlightTypes, r.nodes[i].classes).Some?
      && Cascade(HighlightTypes, r.nodes[i].classes).value >= k
  {
    HighlightItemEffect(p, cfg, i, HighlightTypes[k]);
  }
}
