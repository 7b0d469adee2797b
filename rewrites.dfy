/**
 * Small rewrites of js/content/common.js: `TimeHelper.isExpired`, the value
 * encoding of the sort boxes, the `defaultCommunityTab` path rewrite and the
 * removal of Steam's link filter from forum links.
 */
module Rewrites {
  import opened Wrappers
  import opened JsRuntime

  // ---------------------------------------------------------------------------
  // TimeHelper.isExpired

  /** `Math.trunc(ms / 1000)`: milliseconds to whole seconds, rounded toward zero. */
  function Seconds(ms: int): (s: int)
    ensures ms >= 0 ==> s == ms / 1000
    ensures ms < 0 ==> s == -((-ms) / 1000)
  {
    if ms >= 0 then ms / 1000 else -((-ms) / 1000)
  }

  lemma {:induction false} SecondsMonotone(x: int, y: int)
    requires x <= y
    ensures Seconds(x) <= Seconds(y)
  {
  }

  /**
   * `TimeHelper.isExpired(updateTime, expiration)` at the clock reading
   * `nowMs`: a falsy time (missing or 0) has always expired; otherwise the
   * time has expired if it lies more than `expiration` seconds before now,
   * counted in whole seconds.
   */
  predicate IsExpired(updateTime: Option<int>, expiration: int, nowMs: int) {
    if updateTime.None? || updateTime.value == 0 then true
    else updateTime.value < Seconds(nowMs) - expiration
  }

  /** Staleness only grows with time: what has expired stays expired. */
  lemma {:induction false} ExpiredStaysExpired(updateTime: Option<int>, expiration: int, nowMs: int, laterMs: int)
    requires nowMs <= laterMs
    requires IsExpired(updateTime, expiration, nowMs)
    ensures IsExpired(updateTime, expiration, laterMs)
  {
    SecondsMonotone(nowMs, laterMs);
  }

  /** A nonzero time within `expiration` seconds of now has not expired; one just past it has. */
  lemma {:induction false} ExpiryBoundary(t: int, expiration: int, nowSec: nat, ms: nat)
    requires t != 0 && ms < 1000
    ensures !IsExpired(Some(t), expiration, nowSec * 1000 + ms) <==> t >= nowSec - expiration
  {
    assert Seconds(nowSec * 1000 + ms) == nowSec;
  }

  // ---------------------------------------------------------------------------
  // Sortbox

  /** `val.endsWith(suffix)`. */
  predicate EndsWith(val: string, suffix: string) {
    |suffix| <= |val| && val[|val| - |suffix|..] == suffix
  }

  /** `getTrimmedValue`: `val.replace(/(_ASC|_DESC)$/, '')`, one direction suffix removed. */
  function TrimmedValue(val: string): (r: string)
    ensures EndsWith(val, "_ASC") ==> r + "_ASC" == val
    ensures EndsWith(val, "_DESC") ==> r + "_DESC" == val
    ensures !EndsWith(val, "_ASC") && !EndsWith(val, "_DESC") ==> r == val
  {
    if EndsWith(val, "_ASC") then
      assert val[|val| - 4..] == "_ASC";
      assert !EndsWith(val, "_DESC") by { assert val[|val| - 4] == '_'; }
      assert val[..|val| - 4] + val[|val| - 4..] == val;
      val[..|val| - 4]
    else if EndsWith(val, "_DESC") then
      assert val[|val| - 5..] == "_DESC";
      assert val[..|val| - 5] + val[|val| - 5..] == val;
      val[..|val| - 5]
    else val
  }

  /** What `onChange` stores: the trimmed key with the direction appended. */
  function StoredOption(val: string, reversed: bool): string {
    TrimmedValue(val) + (if reversed then "_DESC" else "_ASC")
  }

  /** The state a sort box starts in: `reversed` when the option ends with `_DESC`. */
  function InitialReversed(option: string): bool {
    EndsWith(option, "_DESC")
  }

  /** The stored option gives back the key and the direction it was stored with. */
  lemma {:induction false} StoredOptionRoundTrip(val: string, reversed: bool)
    ensures TrimmedValue(StoredOption(val, reversed)) == TrimmedValue(val)
    ensures InitialReversed(StoredOption(val, reversed)) == reversed
  {
    var s := StoredOption(val, reversed);
    var t := TrimmedValue(val);
    if reversed {
      assert s[|s| - 5..] == "_DESC";
      assert !EndsWith(s, "_ASC") by { assert s[|s| - 4] == 'D'; }
      assert s[..|s| - 5] == t;
    } else {
      assert s[|s| - 4..] == "_ASC";
      assert s[..|s| - 4] == t;
    }
  }

  /** Storing again what was read back changes nothing, whatever the direction was before. */
  lemma {:induction false} StoredOptionStable(val: string, r1: bool, r2: bool)
    ensures StoredOption(StoredOption(val, r1), r2) == StoredOption(val, r2)
  {
    StoredOptionRoundTrip(val, r1);
  }

  /** Only one direction suffix is removed: the trimming is not idempotent. */
  lemma {:induction false} TrimmedValueRemovesOne()
    ensures TrimmedValue("price_ASC_ASC") == "price_ASC"
  {
    assert EndsWith("price_ASC_ASC", "_ASC");
  }

  /**
   * The `change` event fired once at creation: none for "default_ASC",
   * otherwise `onChange(initialOption, reversed)`, whose call of `changeFn`
   * receives the trimmed key and the direction.
   */
  function InitialChange(initialOption: string): (r: Option<(string, bool)>)
    ensures r.Some? <==> initialOption != "default_ASC"
  {
    if initialOption == "default_ASC" then None
    else Some((TrimmedValue(initialOption), InitialReversed(initialOption)))
  }

  /** An option stored by a sort box restores the same key and direction when the box is built from it. */
  lemma {:induction false} InitialChangeRestores(val: string, reversed: bool)
    requires StoredOption(val, reversed) != "default_ASC"
    ensures InitialChange(StoredOption(val, reversed)) == Some((TrimmedValue(val), reversed))
  {
    StoredOptionRoundTrip(val, reversed);
  }

  // ---------------------------------------------------------------------------
  // defaultCommunityTab

  /** `/^\/app\/[0-9]+\/?$/`: "/app/", at least one digit, at most one slash after. */
  predicate IsAppPath(p: string) {
    |p| > 5 && p[..5] == "/app/"
    && var rest := p[5..];
       ((rest != [] && AllDecimalDigits(rest))
        || (|rest| >= 2 && rest[|rest| - 1] == '/' && AllDecimalDigits(rest[..|rest| - 1])))
  }

  /** An anchor `a[href^='https://steamcommunity.com/app/']` reduced to what the rewrite reads. */
  datatype Link = Link(href: string, pathname: string, sectionTab: bool)

  predicate Selected(l: Link) {
    "https://steamcommunity.com/app/" <= l.href
  }

  /**
   * The path after the rewrite: for a falsy tab, a section tab or a path that
   * is not an app's root page nothing changes; otherwise a slash is added if
   * missing, then the tab and a slash.
   */
  function DefaultTabPath(pathname: string, tab: string, sectionTab: bool): string {
    if tab == [] || sectionTab || !IsAppPath(pathname) then pathname
    else (if EndsWith(pathname, "/") then pathname else pathname + "/") + tab + "/"
  }

  /** `defaultCommunityTab` over the selected links. */
  function DefaultTabLinks(links: seq<Link>, tab: string): (r: seq<Link>)
    ensures |r| == |links|
    ensures forall i :: 0 <= i < |links| ==>
      r[i] == if Selected(links[i]) then links[i].(pathname := DefaultTabPath(links[i].pathname, tab, links[i].sectionTab))
              else links[i]
  {
    if links == [] then []
    else
      var l := links[0];
      var l' := if Selected(l) then l.(pathname := DefaultTabPath(l.pathname, tab, l.sectionTab)) else l;
      [l'] + DefaultTabLinks(links[1..], tab)
  }

  /** An app page path gets exactly one slash, the tab and a trailing slash. */
  lemma {:induction false} DefaultTabPathShape(ds: string, slash: bool, tab: string)
    requires ds != [] && AllDecimalDigits(ds) && tab != []
    ensures DefaultTabPath("/app/" + ds + (if slash then "/" else ""), tab, false) == "/app/" + ds + "/" + tab + "/"
  {
    var p := "/app/" + ds + (if slash then "/" else "");
    assert p[..5] == "/app/";
    var rest := p[5..];
    assert rest == ds + (if slash then "/" else "");
    if slash {
      assert rest[..|rest| - 1] == ds;
      assert EndsWith(p, "/");
    } else {
      assert p[|p| - 1] == ds[|ds| - 1];
      assert !EndsWith(p, "/");
    }
  }

  /** A rewritten path is no longer an app root path, so running the rewrite again changes nothing. */
  lemma {:induction false} DefaultTabPathIdempotent(pathname: string, tab: string, sectionTab: bool)
    requires '/' !in tab
    ensures var once := DefaultTabPath(pathname, tab, sectionTab);
      DefaultTabPath(once, tab, sectionTab) == once
  {
    var once := DefaultTabPath(pathname, tab, sectionTab);
    if once != pathname {
      var base := if EndsWith(pathname, "/") then pathname else pathname + "/";
      assert once == base + tab + "/";
      assert once[..5] == "/app/" by { assert base[..5] == pathname[..5]; }
      var rest := once[5..];
      assert rest[|rest| - 1] == '/';
      assert rest[..|rest| - 1] == base[5..] + tab;
      assert base[|base| - 1] == '/';
      assert !AllDecimalDigits(rest) by { assert rest[|rest| - 1] == '/'; }
      assert !AllDecimalDigits(rest[..|rest| - 1]) by {
        assert rest[..|rest| - 1][|base| - 6] == '/';
      }
    }
  }

  // ---------------------------------------------------------------------------
  // The link filter

  const LinkfilterMarker: string := "/linkfilter/?url="

  predicate HasMarkerAt(href: string, i: nat) {
    i + |LinkfilterMarker| <= |href| && href[i..i + |LinkfilterMarker|] == LinkfilterMarker
  }

  /** No line terminator among `href[a..b]`, so `.+?` can run over it. */
  predicate NoTerminatorIn(href: string, a: nat, b: nat) {
    forall j :: a <= j < b && j < |href| ==> !IsLineTerminator(href[j])
  }

  /**
   * The first position from `i` on where the marker starts, with no line
   * terminator from `i - 1` up to it; `None` when the marker cannot be
   * reached so.
   */
  function MarkerFrom(href: string, i: nat): (r: Option<nat>)
    requires 1 <= i
    ensures r.Some? ==> i <= r.value && r.value + |LinkfilterMarker| <= |href|
    ensures r.Some? ==> href[r.value..r.value + |LinkfilterMarker|] == LinkfilterMarker
    ensures r.Some? ==> NoTerminatorIn(href, i - 1, r.value)
    ensures r.Some? ==> forall k :: i <= k < r.value ==> !HasMarkerAt(href, k)
    ensures r.None? ==> forall k :: i <= k && HasMarkerAt(href, k) ==> !NoTerminatorIn(href, i - 1, k)
    decreases |href| - i
  {
    if i + |LinkfilterMarker| > |href| then None
    else if IsLineTerminator(href[i - 1]) then
      assert forall k :: i <= k && HasMarkerAt(href, k) ==> !NoTerminatorIn(href, i - 1, k);
      None
    else if href[i..i + |LinkfilterMarker|] == LinkfilterMarker then Some(i)
    else
      var r := MarkerFrom(href, i + 1);
      assert !HasMarkerAt(href, i);
      r
  }

  /** The match of `^.+?\/linkfilter\/\?url=`: the marker at `k`, reached without a line terminator, and none earlier. */
  predicate FirstMarker(href: string, k: nat) {
    1 <= k && HasMarkerAt(href, k) && NoTerminatorIn(href, 0, k)
    && forall j :: 1 <= j < k ==> !HasMarkerAt(href, j)
  }

  /**
   * `href.replace(/^.+?\/linkfilter\/\?url=/, "")`: the shortest nonempty
   * prefix without line terminators that the marker follows is removed with
   * the marker; without one the link stays as it is.
   */
  function StripLinkfilter(href: string): (r: string)
    ensures |r| <= |href|
    ensures r == href || |r| + |LinkfilterMarker| < |href|
    ensures r == href <==> forall k :: 1 <= k && HasMarkerAt(href, k) ==> !NoTerminatorIn(href, 0, k)
    ensures r != href ==> exists k: nat :: FirstMarker(href, k) && r == href[k + |LinkfilterMarker|..]
  {
    match MarkerFrom(href, 1)
    case None => href
    case Some(i) =>
      assert FirstMarker(href, i);
      href[i + |LinkfilterMarker|..]
  }

  lemma {:induction false} MarkerFromFinds(href: string, i: nat, j: nat)
    requires 1 <= i <= j && HasMarkerAt(href, j)
    requires forall k :: i <= k < j ==> !HasMarkerAt(href, k)
    requires forall k :: i - 1 <= k < j ==> !IsLineTerminator(href[k])
    ensures MarkerFrom(href, i) == Some(j)
    decreases j - i
  {
    if i < j {
      assert !HasMarkerAt(href, i);
      MarkerFromFinds(href, i + 1, j);
    }
  }

  /** A filtered link `prefix/linkfilter/?url=target` becomes the target. */
  lemma {:induction false} StripFilteredLink(prefix: string, target: string)
    requires prefix != []
    requires forall k :: 0 <= k < |prefix| ==> !IsLineTerminator(prefix[k])
    requires forall k :: 1 <= k < |prefix| ==> !HasMarkerAt(prefix + LinkfilterMarker + target, k)
    ensures StripLinkfilter(prefix + LinkfilterMarker + target) == target
  {
    var href := prefix + LinkfilterMarker + target;
    assert href[|prefix|..|prefix| + |LinkfilterMarker|] == LinkfilterMarker;
    assert forall k :: 0 <= k < |prefix| ==> href[k] == prefix[k];
    MarkerFromFinds(href, 1, |prefix|);
    assert href[|prefix| + |LinkfilterMarker|..] == target;
  }

  /** A link in which the marker does not occur past its first character is left alone. */
  lemma {:induction false} StripWithoutMarker(href: string)
    requires forall k :: 1 <= k ==> !HasMarkerAt(href, k)
    ensures StripLinkfilter(href) == href
  {
    var r := MarkerFrom(href, 1);
    if r.Some? {
      assert HasMarkerAt(href, r.value);
    }
  }
}
