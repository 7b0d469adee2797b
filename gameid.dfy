/**
 * `GameId` of js/core.js: Steam id extraction from URLs, element attributes
 * and element ids.
 *
 * Every regular expression there has the shape `(h1|h2|…)(\d+)` with literal
 * alternatives, sometimes followed by `\/?` or `\/`. `match` finds the
 * leftmost position where some alternative, tried in order, is followed by at
 * least one digit; the greedy `\d+` captures the whole digit run there.
 */
module GameIds {
  import opened Wrappers
  import opened JsRuntime

  // ---------------------------------------------------------------------------
  // parseId

  /** `GameId.parseId`: a falsy input, NaN and 0 give null; otherwise `parseInt(id)` (radix left out). */
  function ParseId(id: string): (r: Option<int>)
    ensures id == [] ==> r == None
    ensures r.Some? ==> r.value != 0 && ParseInt(id, false) == r
    ensures r.None? ==> id == [] || ParseInt(id, false) == None || ParseInt(id, false) == Some(0)
  {
    if id == [] then None
    else
      match ParseInt(id, false)
      case None => None
      case Some(n) => if n == 0 then None else Some(n)
  }

  /**
   * A leading run of digits with a nonzero value, followed by anything that
   * is not a digit, is read as that value. Leading zeros are allowed; a lone
   * "0" (then the value is 0) is the only way a run can start a `0x` prefix.
   */
  lemma {:induction false} ParseIdLeading(ds: string, rest: string)
    requires ds != [] && AllDecimalDigits(ds) && DigitsValue(ds, 10) != 0
    requires rest == [] || !IsDecimalDigit(rest[0])
    ensures ParseId(ds + rest) == Some(DigitsValue(ds, 10))
  {
    var s := ds + rest;
    assert s[0] == ds[0];
    TrimStartNoLeadingSpace(s);
    assert SignedBody(s) == (false, s);
    LeadingDigitsOfDigits(ds, rest);
    NoHexPrefix(ds, rest);
  }

  /** A run of digits that is not just "0" never begins with `0x`. */
  lemma {:induction false} NoHexPrefix(ds: string, rest: string)
    requires ds != [] && AllDecimalDigits(ds) && DigitsValue(ds, 10) != 0
    ensures !HasHexPrefix(ds + rest)
  {
    if |ds| == 1 {
      assert ds[..0] == [];
      assert DigitsValue(ds, 10) == DigitValue(ds[0]);
    } else {
      assert (ds + rest)[1] == ds[1];
    }
  }

  /** Printed nonzero integers come back unchanged; non-numeric text is rejected. */
  lemma {:induction false} ParseIdOfInt(n: int)
    ensures ParseId(IntToString(n)) == if n == 0 then None else Some(n)
  {
    ParseIntToString(n, false);
  }

  lemma {:induction false} ParseIdNonNumeric(s: string)
    requires s != [] && !IsWhitespace(s[0]) && !IsDecimalDigit(s[0]) && s[0] != '-' && s[0] != '+'
    ensures ParseId(s) == None
  {
    TrimStartNoLeadingSpace(s);
  }

  // ---------------------------------------------------------------------------
  // Matching `(h1|h2|…)(\d+)` followed by an optional or required slash

  datatype Tail = NoSlash | OptionalSlash | RequiredSlash

  /** A match: the captured digits and the index just past the matched text. */
  datatype Found = Found(capture: string, start: nat, end: nat)

  /** The match of one alternative at the very start of the text: (digits, matched length). */
  function MatchHead(text: string, head: string, tail: Tail): (r: Option<(string, nat)>)
    ensures r.Some? ==> r.value.0 != [] && AllDecimalDigits(r.value.0)
    ensures r.Some? ==> |head| + |r.value.0| <= r.value.1 <= |text| && r.value.1 > 0
    ensures r.Some? ==> head <= text && text[|head|..|head| + |r.value.0|] == r.value.0
  {
    if !(head <= text) then None
    else
      var ds := LeadingDigits(text[|head|..], 10);
      var after := |head| + |ds|;
      var slash := after < |text| && text[after] == '/';
      if ds == [] then None
      else if tail == RequiredSlash && !slash then None
      else Some((ds, if tail != NoSlash && slash then after + 1 else after))
  }

  /** The alternatives tried in order at one position. */
  function MatchHere(text: string, heads: seq<string>, tail: Tail): (r: Option<(string, nat)>)
    ensures r.Some? ==> r.value.0 != [] && AllDecimalDigits(r.value.0) && 0 < r.value.1 <= |text|
  {
    if heads == [] then None
    else MatchHead(text, heads[0], tail).OrElse(MatchHere(text, heads[1..], tail))
  }

  /** The leftmost match, as `String#match` or one `RegExp#exec` step finds it. */
  function Locate(text: string, heads: seq<string>, tail: Tail): (r: Option<Found>)
    ensures r.Some? ==> r.value.start < r.value.end <= |text|
    ensures r.Some? ==> r.value.capture != [] && AllDecimalDigits(r.value.capture)
    decreases |text|
  {
    match MatchHere(text, heads, tail)
    case Some((ds, len)) => Some(Found(ds, 0, len))
    case None =>
      if text == [] then None else Shift(Locate(text[1..], heads, tail), 1)
  }

  /** A match found in a suffix, placed back in the whole text. */
  function Shift(r: Option<Found>, k: nat): Option<Found> {
    match r
    case None => None
    case Some(f) => Some(Found(f.capture, f.start + k, f.end + k))
  }

  /** `m && GameId.parseId(m[1])`. */
  function ParseCapture(text: string, heads: seq<string>, tail: Tail): Option<int> {
    match Locate(text, heads, tail)
    case None => None
    case Some(f) => ParseId(f.capture)
  }

  lemma {:induction false} MatchHereNone(text: string, heads: seq<string>, tail: Tail)
    requires forall k :: 0 <= k < |heads| ==> !(heads[k] <= text)
    ensures MatchHere(text, heads, tail) == None
  {
    if heads != [] {
      MatchHereNone(text, heads[1..], tail);
    }
  }

  /** Positions where no alternative starts are skipped over. */
  lemma {:induction false} LocateSkips(pre: string, t: string, heads: seq<string>, tail: Tail)
    requires forall i :: 0 <= i < |pre| ==> MatchHere((pre + t)[i..], heads, tail) == None
    ensures Locate(pre + t, heads, tail) == Shift(Locate(t, heads, tail), |pre|)
  {
    if pre == [] {
      assert pre + t == t;
    } else {
      var s := pre + t;
      assert s[0..] == s;
      forall i | 0 <= i < |pre[1..]| ensures MatchHere((pre[1..] + t)[i..], heads, tail) == None {
        SuffixAfterFirst(pre, t, i);
      }
      LocateSkips(pre[1..], t, heads, tail);
      SuffixAfterFirst(pre, t, 0);
      LocateMovesOn(s, heads, tail);
      ShiftTwice(Locate(t, heads, tail), |pre| - 1, 1);
    }
  }

  lemma {:induction false} SuffixAfterFirst(pre: string, t: string, i: nat)
    requires 0 <= i < |pre|
    ensures (pre[1..] + t)[i..] == (pre + t)[i + 1..]
  {
  }

  /** Where no alternative matches, the search goes on one character further. */
  lemma {:induction false} LocateMovesOn(s: string, heads: seq<string>, tail: Tail)
    requires s != [] && MatchHere(s, heads, tail) == None
    ensures Locate(s, heads, tail) == Shift(Locate(s[1..], heads, tail), 1)
  {
  }

  lemma {:induction false} ShiftTwice(r: Option<Found>, a: nat, b: nat)
    ensures Shift(Shift(r, a), b) == Shift(r, a + b)
  {
  }

  /** A text that begins with an alternative and its digits is matched right there. */
  lemma {:induction false} LocateAtHead(heads: seq<string>, k: nat, ds: string, rest: string, tail: Tail)
    requires k < |heads| && ds != [] && AllDecimalDigits(ds)
    requires rest == [] || !IsDecimalDigit(rest[0])
    requires tail == RequiredSlash ==> "/" <= rest
    requires forall j :: 0 <= j < k ==> !(heads[j] <= heads[k] + ds + rest)
    ensures Locate(heads[k] + ds + rest, heads, tail).Some?
    ensures Locate(heads[k] + ds + rest, heads, tail).value.capture == ds
    ensures Locate(heads[k] + ds + rest, heads, tail).value.end ==
      |heads[k]| + |ds| + (if tail != NoSlash && "/" <= rest then 1 else 0)
  {
    var text := heads[k] + ds + rest;
    var h := heads[k];
    assert h <= text;
    assert text[|h|..] == ds + rest;
    LeadingDigitsOfDigits(ds, rest);
    var after := |h| + |ds|;
    if after < |text| {
      assert text[after] == rest[0];
    }
    assert MatchHead(text, h, tail) == Some((ds, |h| + |ds| + (if tail != NoSlash && "/" <= rest then 1 else 0)));
    MatchHereFrom(text, heads, k, tail);
  }

  lemma {:induction false} MatchHereFrom(text: string, heads: seq<string>, k: nat, tail: Tail)
    requires k < |heads| && MatchHead(text, heads[k], tail).Some?
    requires forall j :: 0 <= j < k ==> !(heads[j] <= text)
    ensures MatchHere(text, heads, tail) == MatchHead(text, heads[k], tail)
  {
    if k > 0 {
      MatchHereFrom(text, heads[1..], k - 1, tail);
    }
  }

  // ---------------------------------------------------------------------------
  // The patterns

  const StoreHost: string := "store.steampowered.com/"
  const CommunityHost: string := "steamcommunity.com/"

  /** `(?:store\.steampowered|steamcommunity)\.com\/(app|market\/listings)\/(\d+)\/?` */
  const AppHeads: seq<string> := [
    StoreHost + "app/", StoreHost + "market/listings/",
    CommunityHost + "app/", CommunityHost + "market/listings/"]
  /** `…\.com\/sub\/(\d+)\/?` */
  const SubHeads: seq<string> := [StoreHost + "sub/", CommunityHost + "sub/"]
  /** `…\.com\/bundle\/(\d+)\/?` */
  const BundleHeads: seq<string> := [StoreHost + "bundle/", CommunityHost + "bundle/"]
  /** `(?:store\.steampowered|steamcommunity)\.com\/app\/(\d+)\/?`, global */
  const AppOnlyHeads: seq<string> := [StoreHost + "app/", CommunityHost + "app/"]
  /** `(steamcdn-a\.akamaihd\.net\/steam|steamcommunity\/public\/images)\/apps\/(\d+)\/` */
  const ImgHeads: seq<string> := ["steamcdn-a.akamaihd.net/steam/apps/", "steamcommunity/public/images/apps/"]

  // ---------------------------------------------------------------------------
  // The extractors

  /** An element's `data-ds-appid`, `data-ds-packageid`, `data-ds-bundleid`, `href` and `id`; "" stands for absent. */
  datatype Element = Element(dsAppid: string, dsPackageid: string, dsBundleid: string, href: string, id: string)

  /** The argument of the `getAppid` family: a string or an element. */
  datatype IdSource = Text(s: string) | Node(e: Element)

  datatype IdKind = AppKind | SubKind | BundleKind

  /** The data attribute `getAppid`, `getSubid` and `getBundleid` read first. */
  function DataAttr(e: Element, kind: IdKind): string {
    match kind
    case AppKind => e.dsAppid
    case SubKind => e.dsPackageid
    case BundleKind => e.dsBundleid
  }

  /**
   * The URL part. `getSubid` and `getBundleid` as written read `m[2]` of a
   * regex with one group, which is undefined, so `parseId` gives null; with
   * `intended` they read the group itself, `m[1]`.
   */
  function UrlId(s: string, kind: IdKind, intended: bool): Option<int> {
    match kind
    case AppKind => ParseCapture(s, AppHeads, OptionalSlash)
    case SubKind =>
      if intended then ParseCapture(s, SubHeads, OptionalSlash)
      else if Locate(s, SubHeads, OptionalSlash).Some? then ParseId([]) else None
    case BundleKind =>
      if intended then ParseCapture(s, BundleHeads, OptionalSlash)
      else if Locate(s, BundleHeads, OptionalSlash).Some? then ParseId([]) else None
  }

  /**
   * The shared shape of `getAppid`/`getSubid`/`getBundleid`: a truthy data
   * attribute decides alone (even when `parseId` then rejects it); without
   * one an element's `href` is matched; a falsy text gives null.
   */
  function FromSource(src: IdSource, kind: IdKind, intended: bool): Option<int> {
    match src
    case Text(s) => if s == [] then None else UrlId(s, kind, intended)
    case Node(e) =>
      if DataAttr(e, kind) != [] then ParseId(DataAttr(e, kind))
      else if e.href == [] then None
      else UrlId(e.href, kind, intended)
  }

  /** `GameId.getAppid`. */
  function GetAppid(src: IdSource): (r: Option<int>)
    ensures r.Some? ==> r.value != 0
    ensures src.Node? && src.e.dsAppid != [] ==> r == ParseId(src.e.dsAppid)
  {
    FromSource(src, AppKind, false)
  }

  /** `GameId.getSubid` as written: only the data attribute can give an id. */
  function GetSubid(src: IdSource): (r: Option<int>)
    ensures r.Some? ==> src.Node? && src.e.dsPackageid != [] && r == ParseId(src.e.dsPackageid)
  {
    FromSource(src, SubKind, false)
  }

  /** `GameId.getBundleid` as written: only the data attribute can give an id. */
  function GetBundleid(src: IdSource): (r: Option<int>)
    ensures r.Some? ==> src.Node? && src.e.dsBundleid != [] && r == ParseId(src.e.dsBundleid)
  {
    FromSource(src, BundleKind, false)
  }

  /** `getSubid` reading `m[1]`: a package link yields its id. */
  function GetSubidIntended(src: IdSource): (r: Option<int>)
    ensures r.Some? ==> r.value != 0
  {
    FromSource(src, SubKind, true)
  }

  /** `getBundleid` reading `m[1]`. */
  function GetBundleidIntended(src: IdSource): (r: Option<int>)
    ensures r.Some? ==> r.value != 0
  {
    FromSource(src, BundleKind, true)
  }

  /** `GameId.getAppidImgSrc`: the digits must be followed by a slash. */
  function GetAppidImgSrc(s: string): (r: Option<int>)
    ensures r.Some? ==> r.value != 0
  {
    if s == [] then None else ParseCapture(s, ImgHeads, RequiredSlash)
  }

  /** `GameId.getAppidUriQuery`: `appid=(\d+)`. */
  function GetAppidUriQuery(s: string): (r: Option<int>)
    ensures r.Some? ==> r.value != 0
  {
    if s == [] then None else ParseCapture(s, ["appid="], NoSlash)
  }

  /** `GameId.getAppidFromId`: `game_(\d+)`. */
  function GetAppidFromId(s: string): (r: Option<int>)
    ensures r.Some? ==> r.value != 0
  {
    if s == [] then None else ParseCapture(s, ["game_"], NoSlash)
  }

  /** `GameId.getAppidFromGameCard`: `\/gamecards\/(\d+)`. */
  function GetAppidFromGameCard(s: string): (r: Option<int>)
    ensures r.Some? ==> r.value != 0
  {
    if s == [] then None else ParseCapture(s, ["/gamecards/"], NoSlash)
  }

  /** The texts in which no alternative starts at any position. */
  predicate NoHeadIn(text: string, heads: seq<string>) {
    forall i, k :: 0 <= i <= |text| && 0 <= k < |heads| ==> !(heads[k] <= text[i..])
  }

  lemma {:induction false} LocateNone(text: string, heads: seq<string>, tail: Tail)
    requires NoHeadIn(text, heads)
    ensures Locate(text, heads, tail) == None
    decreases |text|
  {
    assert text[0..] == text;
    MatchHereNone(text, heads, tail);
    if text != [] {
      forall i, k | 0 <= i <= |text[1..]| && 0 <= k < |heads| ensures !(heads[k] <= text[1..][i..]) {
        assert text[1..][i..] == text[i + 1..];
      }
      LocateNone(text[1..], heads, tail);
    }
  }

  /** A text in which no head of the pattern occurs yields no id, for each of the four helpers. */
  lemma {:induction false} HelpersNeedTheirHead(s: string)
    ensures NoHeadIn(s, ImgHeads) ==> GetAppidImgSrc(s) == None
    ensures NoHeadIn(s, ["appid="]) ==> GetAppidUriQuery(s) == None
    ensures NoHeadIn(s, ["game_"]) ==> GetAppidFromId(s) == None
    ensures NoHeadIn(s, ["/gamecards/"]) ==> GetAppidFromGameCard(s) == None
  {
    if NoHeadIn(s, ImgHeads) { LocateNone(s, ImgHeads, RequiredSlash); }
    if NoHeadIn(s, ["appid="]) { LocateNone(s, ["appid="], NoSlash); }
    if NoHeadIn(s, ["game_"]) { LocateNone(s, ["game_"], NoSlash); }
    if NoHeadIn(s, ["/gamecards/"]) { LocateNone(s, ["/gamecards/"], NoSlash); }
  }

  /** `appid=<digits>` at the start of the text yields the value of the digits. */
  lemma {:induction false} UriQueryReads(ds: string, rest: string)
    requires ds != [] && AllDecimalDigits(ds) && DigitsValue(ds, 10) != 0
    requires rest == [] || !IsDecimalDigit(rest[0])
    ensures GetAppidUriQuery("appid=" + ds + rest) == Some(DigitsValue(ds, 10))
  {
    LocateAtHead(["appid="], 0, ds, rest, NoSlash);
    ParseIdLeading(ds, []);
    assert ds + [] == ds;
  }

  /** An element id `game_<digits>` yields the value of the digits. */
  lemma {:induction false} FromIdReads(ds: string, rest: string)
    requires ds != [] && AllDecimalDigits(ds) && DigitsValue(ds, 10) != 0
    requires rest == [] || !IsDecimalDigit(rest[0])
    ensures GetAppidFromId("game_" + ds + rest) == Some(DigitsValue(ds, 10))
  {
    LocateAtHead(["game_"], 0, ds, rest, NoSlash);
    ParseIdLeading(ds, []);
    assert ds + [] == ds;
  }

  /** A path `/gamecards/<digits>` yields the value of the digits. */
  lemma {:induction false} GameCardReads(ds: string, rest: string)
    requires ds != [] && AllDecimalDigits(ds) && DigitsValue(ds, 10) != 0
    requires rest == [] || !IsDecimalDigit(rest[0])
    ensures GetAppidFromGameCard("/gamecards/" + ds + rest) == Some(DigitsValue(ds, 10))
  {
    LocateAtHead(["/gamecards/"], 0, ds, rest, NoSlash);
    ParseIdLeading(ds, []);
    assert ds + [] == ds;
  }

  /** An image path `…/apps/<digits>/` of either host yields the value of the digits. */
  lemma {:induction false} ImgSrcReads(k: nat, ds: string, rest: string)
    requires k < |ImgHeads|
    requires ds != [] && AllDecimalDigits(ds) && DigitsValue(ds, 10) != 0
    requires "/" <= rest
    ensures GetAppidImgSrc(ImgHeads[k] + ds + rest) == Some(DigitsValue(ds, 10))
  {
    var text := ImgHeads[k] + ds + rest;
    assert rest[0] == '/';
    if k == 1 {
      assert text[6] == 'o' && ImgHeads[0][6] == 'd';
    }
    LocateAtHead(ImgHeads, k, ds, rest, RequiredSlash);
    ParseIdLeading(ds, []);
    assert ds + [] == ds;
  }

  /** `GameId.trimStoreId`: `Number` of what follows the first '/', or of the whole string without one. */
  function TrimStoreId(storeId: string): (r: Option<int>)
    ensures '/' !in storeId ==> r == NumberOfString(storeId)
  {
    NumberOfString(storeId[IndexOf(storeId, '/') + 1..])
  }

  /** `trimStoreId(kind + "/" + n)` is n. */
  lemma {:induction false} TrimStoreIdOfKind(kind: string, n: int)
    requires '/' !in kind
    ensures TrimStoreId(kind + "/" + IntToString(n)) == Some(n)
  {
    var s := kind + "/" + IntToString(n);
    assert s[|kind|] == '/';
    assert s[..|kind|] == kind;
    assert IndexOf(s, '/') == |kind|;
    assert s[|kind| + 1..] == IntToString(n);
    NumberOfIntToString(n);
  }

  // ---------------------------------------------------------------------------
  // getAppids

  /** Every app id of the global regex's successive matches that `parseId` accepts. */
  function AppidsIn(text: string): (ids: seq<int>)
    ensures forall i :: 0 <= i < |ids| ==> ids[i] != 0
    decreases |text|
  {
    match Locate(text, AppOnlyHeads, OptionalSlash)
    case None => []
    case Some(f) =>
      var rest := AppidsIn(text[f.end..]);
      match ParseId(f.capture)
      case Some(id) => [id] + rest
      case None => rest
  }

  lemma {:induction false} AppidsStep(text: string)
    ensures Locate(text, AppOnlyHeads, OptionalSlash).None? ==> AppidsIn(text) == []
    ensures Locate(text, AppOnlyHeads, OptionalSlash).Some? ==>
      var f := Locate(text, AppOnlyHeads, OptionalSlash).value;
      var id := ParseId(f.capture);
      AppidsIn(text) == (if id.Some? then [id.value] else []) + AppidsIn(text[f.end..])
  {
  }

  /** `GameId.getAppids`: `exec` in a loop, each search starting where the previous match ended. */
  method GetAppids(text: string) returns (res: seq<int>)
    ensures res == AppidsIn(text)
  {
    res := [];
    var rest := text;  // the text from the regex's lastIndex on
    while true
      invariant res + AppidsIn(rest) == AppidsIn(text)
      decreases |rest|
    {
      var m := Locate(rest, AppOnlyHeads, OptionalSlash);
      AppidsStep(rest);
      if m.None? {
        break;
      }
      var id := ParseId(m.value.capture);
      if id.Some? {
        res := res + [id.value];
      }
      rest := rest[m.value.end..];
    }
    assert res + [] == res;
  }

  /** A store app link contributes its id and the search goes on after it. */
  lemma {:induction false} AppidsOfLink(k: nat, n: nat, rest: string)
    requires k < 2 && n > 0
    requires rest == [] || !IsDecimalDigit(rest[0])
    ensures AppidsIn(AppOnlyHeads[k] + NatToString(n) + rest) ==
      [n] + AppidsIn(if "/" <= rest then rest[1..] else rest)
  {
    var ds := NatToString(n);
    var text := AppOnlyHeads[k] + ds + rest;
    if k == 1 {
      CommunityIsNotStore(ds + rest);
      assert text == AppOnlyHeads[1] + (ds + rest);
    }
    LocateAtHead(AppOnlyHeads, k, ds, rest, OptionalSlash);
    var f := Locate(text, AppOnlyHeads, OptionalSlash).value;
    var skip := if "/" <= rest then 1 else 0;
    assert f.capture == ds && f.end == |AppOnlyHeads[k]| + |ds| + skip;
    assert ParseId(ds) == Some(n) by {
      ParseIdOfInt(n);
    }
    assert text[f.end..] == if "/" <= rest then rest[1..] else rest by {
      SuffixAfterMatch(AppOnlyHeads[k], ds, rest, skip);
      assert rest[0..] == rest;
    }
    AppidsStep(text);
  }

  lemma {:induction false} CommunityIsNotStore(s: string)
    ensures !(AppOnlyHeads[0] <= AppOnlyHeads[1] + s)
  {
    assert (AppOnlyHeads[1] + s)[2] != AppOnlyHeads[0][2];
  }

  lemma {:induction false} SuffixAfterMatch(head: string, ds: string, rest: string, skip: nat)
    requires skip <= |rest|
    ensures (head + ds + rest)[|head| + |ds| + skip..] == rest[skip..]
  {
  }

  /** The URL of a store page yields its app id, past the `https://` scheme. */
  lemma {:induction false} GetAppidOfStoreUrl(n: nat, rest: string)
    requires n > 0
    requires rest == [] || !IsDecimalDigit(rest[0])
    ensures GetAppid(Text("https://" + StoreHost + "app/" + NatToString(n) + rest)) == Some(n)
  {
    var pre := "https://";
    var t := StoreHost + "app/" + NatToString(n) + rest;
    assert "https://" + StoreHost + "app/" + NatToString(n) + rest == pre + t;
    forall i | 0 <= i < |pre| ensures MatchHere((pre + t)[i..], AppHeads, OptionalSlash) == None {
      SchemeStartsNoHead(t, i);
    }
    LocateSkips(pre, t, AppHeads, OptionalSlash);
    LocateAtHead(AppHeads, 0, NatToString(n), rest, OptionalSlash);
    ParseIdOfInt(n);
  }

  /** No app pattern starts inside `https://`. */
  lemma {:induction false} SchemeStartsNoHead(t: string, i: nat)
    requires i < 8
    ensures MatchHere(("https://" + t)[i..], AppHeads, OptionalSlash) == None
  {
    var x := ("https://" + t)[i..];
    assert x[0] == "https://"[i];
    if i == 4 {
      assert x[1] == ':';
    }
    MatchHereNone(x, AppHeads, OptionalSlash);
  }

  /**
   * A package link: `getSubid` as written finds the match but reads the
   * missing second group and gives null; reading the group gives the id.
   */
  lemma {:induction false} SubidOfStoreUrl(n: nat, rest: string)
    requires n > 0
    requires rest == [] || !IsDecimalDigit(rest[0])
    ensures GetSubid(Text(StoreHost + "sub/" + NatToString(n) + rest)) == None
    ensures GetSubidIntended(Text(StoreHost + "sub/" + NatToString(n) + rest)) == Some(n)
  {
    LocateAtHead(SubHeads, 0, NatToString(n), rest, OptionalSlash);
    ParseIdOfInt(n);
  }

  /** The same for a bundle link and `getBundleid`. */
  lemma {:induction false} BundleidOfStoreUrl(n: nat, rest: string)
    requires n > 0
    requires rest == [] || !IsDecimalDigit(rest[0])
    ensures GetBundleid(Text(StoreHost + "bundle/" + NatToString(n) + rest)) == None
    ensures GetBundleidIntended(Text(StoreHost + "bundle/" + NatToString(n) + rest)) == Some(n)
  {
    LocateAtHead(BundleHeads, 0, NatToString(n), rest, OptionalSlash);
    ParseIdOfInt(n);
  }
}
