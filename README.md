# Enhanced Steam content-script core, in Dafny

A model of the core of the Enhanced Steam browser extension, with proofs about it. The core is the part of the content scripts that decides what a Steam store or community page shows:

- The **highlights and tags engine**. `highlightAndTag` collects the store ids of a list of tiles. It asks three providers about them: the dynamic store (owned, wishlisted, ignored), IsThereAnyDeal (collection, waitlist) and the Steam inventory (gift, guest pass, coupon). It then calls `highlightOwned`, `highlightWishlist`, … on every tile of each store id. Those calls go through `highlightItem`, `highlightNode` and `addTag`.
- The providers' `getAppStatus` reshaping, in `DynamicStore`, `ITAD` and `Inventory`.
- The **progress bar** state machine.
- **Currencies**: `SteamCurrency`, with its formatting and placeholder, and `CurrencyRegistry`, with its indices and symbol expression.
- The **cookie cache** `CookieStorage`, `TimeHelper.isExpired`, and the sort-box option trimming.
- The `defaultCommunityTab` and link-filter link rewrites.
- From js/core.js:
  - `Version`, and the update gate `UpdateHandler.checkVersion`;
  - the `GameId` extractors;
  - the `SyncedStorage` cache;
  - the string helpers `HTML.escape`, `HTMLParser.clearSpecialSymbols`, `StringUtils.escapeRegExp` and `StringUtils.hashCode`.

The model keeps the source's form:

- Pure code becomes datatypes and functions.
- State that the source updates in place becomes a class: `SyncedStorage`, `CookieStorage`, `ProgressBar`, `CurrencyRegistry`, and the page the highlighter writes to. Each class is read through a `State()` function. Every method is proved to produce the state a pure function of the old state describes, and the properties are proved as lemmas about those functions.
- The source's loops stay loops: the `getAppids` exec loop, `hashCode`, the digit grouping of `stringify`, the two counting loops of `placeholder`, the cookie loading loop, `forEach`, the pass over the tiles and the loop over the groups.

Files:

- `wrappers.dfy`: Option and Result.
- `jsruntime.dfy`: the JavaScript built-ins the core relies on. These are `trim`, `parseInt`, `Number`, `split`/`join`, `indexOf`, ToInt32 and UTF-16 code units.
- `strings.dfy`: the string helpers.
- `version.dfy`: `Version` and `checkVersion`.
- `gameid.dfy`: `GameId`.
- `synced_storage.dfy`: `SyncedStorage`.
- `progress_bar.dfy`: `ProgressBar`.
- `currency_format.dfy`: `SteamCurrency`.
- `currency_registry.dfy`: `CurrencyRegistry`.
- `cookies.dfy`: `CookieStorage`.
- `rewrites.dfy`: `TimeHelper.isExpired`, the `Sortbox` trimming, `defaultCommunityTab` and the link-filter rewrite.
- `app_status.dfy`: the three providers' `getAppStatus`.
- `highlights.dfy`: `addTag`, `highlightNode`/`highlightItem` and the `highlight*` wrappers.
- `highlight_pipeline.dfy`: `highlightAndTag`.

Where the code and its documentation disagree, the model follows the code:

- With `highlight_excludef2p` on, `highlightNode` adds the node's classes before the free-to-play test returns. Only the stylesheet is skipped for a free-to-play node.
- ITAD's `getAppStatus` never fills in the waitlist lookup, so no tile is ever highlighted as waitlisted.
- A rejected `Promise.all` leaves only the highlights made during the pass over the tiles.
- The highlight pipeline uses `getSubid` and `getBundleid` as written. They read a regex group that does not exist, so only the `data-ds-packageid` and `data-ds-bundleid` attributes give package and bundle ids, and a tile known only by a package or bundle link gets no store id (see Findings).
- The highlighter uses `addTag` as written. Its guard never matches, so a node that is tagged again shows the badge again (see Findings).

## Model

| member | source | states |
|---|---|---|
| JsRuntime.Trim | js/content/common.js:485 | `String#trim`. The result neither starts nor ends with white space, and it is the input itself when the input already has no white space at either end. |
| JsRuntime.TrimRemovesOnlyOuterWhitespace | js/content/common.js:485 | The result is a slice of the input, and everything outside that slice is white space. With `Trim`'s own contract, this says `trim` removes exactly the white space at the two ends. |
| JsRuntime.TrimIdempotent | js/content/common.js:496-497 | Trimming twice is trimming once. This is why a name the cookie cache stores trimmed is found again under the trimmed spelling. |
| JsRuntime.IntToString | js/core.js:61-63 | How a template literal writes an integer: nonempty, decimal digits with an optional leading minus, and never a '.' or a '/'. |
| JsRuntime.ParseIntToString | js/core.js:49 | `parseInt` reads back every integer `String(n)` wrote, with or without the radix 10 argument. |
| JsRuntime.NumberOfIntToString | js/core.js:318 | `Number` reads back every integer `String(n)` wrote. |
| JsRuntime.Split | js/core.js:52 | `split` on one character gives at least one field, and no field contains the separator. |
| JsRuntime.SplitJoin | js/core.js:52 | Joining the fields of a split with the separator gives the string back. |
| JsRuntime.SplitOfJoin | js/core.js:51-53 | Splitting a join of separator-free fields gives the fields back. |
| JsRuntime.IndexOf | js/core.js:318 | `indexOf` finds the first position of the character, and gives -1 exactly when the character does not occur. |
| JsRuntime.ToInt32 | js/core.js:902 | `hash & hash` lands in the signed 32-bit range and stays congruent to the input modulo 2^32. |
| JsRuntime.ToInt32Congruent | js/core.js:901-902 | Inputs congruent modulo 2^32 convert to the same 32-bit integer. |
| JsRuntime.UnitsOfChar | js/core.js:900 | A code point below 0x10000 is one unit holding it. Any other code point is a high surrogate in [0xD800, 0xDC00) followed by a low surrogate in [0xDC00, 0xE000), and the pair decodes back to the code point. |
| JsRuntime.CodeUnits | js/core.js:900 | `charCodeAt` reads UTF-16 code units below 0x10000, at least one per character. |
| JsRuntime.CodeUnitsOfChar | js/core.js:900 | A one-character string is encoded as `UnitsOfChar` encodes the character. |
| JsRuntime.CodeUnitsAppend | js/core.js:900 | The units of a concatenation are the units of the parts, one after the other. With `CodeUnitsOfChar`, this fixes every unit of every string. |
| JsRuntime.CodeUnitsBmp | js/core.js:900 | A string with no character beyond 0x10000 has one unit per character, equal to its code point. |
| StringUtils.EscapeHtml | js/core.js:742-753 | The output contains none of `<`, `>`, `"` or `'`. Text without special characters is left unchanged. |
| StringUtils.EscapeHtmlRoundTrip | js/core.js:742-753 | Decoding the five entities of the escaped text gives the input back. |
| StringUtils.ClearSpecialSymbols | js/core.js:836-838 | No ®, © or ™ is left, and the result is no longer than the input. |
| StringUtils.ClearSpecialSymbolsKeepsOthers | js/core.js:836-838 | Every other character is kept exactly as often as it occurs. |
| StringUtils.ClearSpecialSymbolsAppend | js/core.js:836-838 | The removal works piece by piece, so the kept characters stay in their order. |
| StringUtils.ClearSpecialSymbolsIdempotent | js/core.js:836-838 | Clearing twice is clearing once. |
| StringUtils.EscapeRegExp | js/core.js:888-890 | The result is never shorter than the input. Text without metacharacters is left unchanged. |
| StringUtils.EscapeRegExpIsLiteral | js/core.js:888-890 | Every metacharacter of the result is escaped, and the pattern stands for exactly the input text. |
| StringUtils.PolyHashIsWeightedSum | js/core.js:893-906 | The recurrence h = 31h + c, run from the left, equals the sum of c_i·31^(n-1-i). |
| StringUtils.HashStep | js/core.js:900-902 | One round of `(hash << 5) - hash + char`, truncated to 32 bits, is 31·hash + char modulo 2^32. |
| StringUtils.HashCode | js/core.js:893-906 | The loop computes Java's `String.hashCode` of the code units as a signed 32-bit integer. The empty string hashes to 0. |
| Versions.FromArray | js/core.js:48-50 | Each of the first three parts is parsed in radix 10. Missing minor and patch parts default to 0, and an empty array leaves the major part undefined. |
| Versions.FromString | js/core.js:51-53 | A string always gives a defined major component. |
| Versions.BeforeIsLexicographic | js/core.js:74-109 | On integer versions, `isBefore` and `isAfter` are lexicographic order and `isSame` is equality. `isSameOrBefore` and `isSameOrAfter` are the unions. |
| Versions.BeforeIsStrictTotalOrder | js/core.js:80-90 | `isBefore` is irreflexive, transitive, total together with `isSame`, and asymmetric. |
| Versions.SameOrBeforeWithNaN | js/core.js:91-101 | With a NaN major component, `isSameOrBefore` holds although neither `isBefore` nor `isSame` does. |
| Versions.FromStringToString | js/core.js:51-63 | `fromString(v.toString())` gives back v. |
| Versions.MissingPartsAreZero | js/core.js:29-34 | "a" reads as a.0.0 and "a.b" as a.b.0. |
| Versions.UpdateGate | js/core.js:115-128 | The gate fails exactly when the stored version is not a string. The update runs exactly when the stored version is before 1.3.1. It then migrates from the stored version and shows the changelog iff `version_show` is truthy. Otherwise nothing happens. |
| Versions.InfoVersionParts | js/core.js:1-4 | `Info.version` reads as 1.3.1. |
| Versions.GateClosedAtCurrentVersion | js/core.js:119-127 | Once 1.3.1 is stored, the gate stays closed. |
| Versions.GateOpensForOlderVersion | js/core.js:116-125 | A stored integer version opens the gate exactly when it is lexicographically older than 1.3.1. |
| Versions.CheckVersion | js/core.js:115-128 | The method returns the gate's decision on the stored values. When the gate does not fail, the only change to storage is `version` set to 1.3.1. When it fails, storage is unchanged. |
| GameIds.ParseId | js/core.js:265-272 | An empty text, NaN and 0 give null. Any other result is the nonzero `parseInt` value. |
| GameIds.ParseIdLeading | js/core.js:265-272 | A leading run of decimal digits with a nonzero value, followed by anything that is not a digit, reads as that value. Leading zeros are allowed, so "012x" gives 12. A run whose value is 0 gives null, as `parseId` does. |
| GameIds.ParseIdOfInt | js/core.js:265-272 | A printed integer comes back unchanged, except 0, which gives null. |
| GameIds.ParseIdNonNumeric | js/core.js:265-272 | Text that starts with neither a sign, a digit nor white space gives null. |
| GameIds.Locate | js/core.js:285 | The leftmost match lies inside the text and captures a nonempty run of digits. |
| GameIds.LocateSkips | js/core.js:285 | Positions where no alternative starts are skipped, and the match is found further on. |
| GameIds.LocateAtHead | js/core.js:285 | A text that begins with an alternative and digits is matched there. The capture is those digits, and the match includes an optional trailing slash. |
| GameIds.GetAppid | js/core.js:274-287 | A result is never 0. A truthy `data-ds-appid` attribute decides alone. |
| GameIds.GetAppidOfStoreUrl | js/core.js:274-287 | An `https://store.steampowered.com/app/<n>` URL yields n. |
| GameIds.GetSubid | js/core.js:289-301 | As written, an id can come only from a truthy `data-ds-packageid` attribute. |
| GameIds.GetBundleid | js/core.js:303-315 | As written, an id can come only from a truthy `data-ds-bundleid` attribute. |
| GameIds.GetSubidIntended | js/core.js:289-301 | The corrected `getSubid`: a result is never 0. |
| GameIds.GetBundleidIntended | js/core.js:303-315 | The corrected `getBundleid`: a result is never 0. |
| GameIds.SubidOfStoreUrl | js/core.js:299-300 | A package link gives null as written and its id when the group is read. |
| GameIds.BundleidOfStoreUrl | js/core.js:313-314 | A bundle link gives null as written and its id when the group is read. |
| GameIds.GetAppidImgSrc | js/core.js:321-325 | A result is never 0. |
| GameIds.GetAppidUriQuery | js/core.js:327-331 | A result is never 0. |
| GameIds.GetAppidFromId | js/core.js:346-350 | A result is never 0. |
| GameIds.GetAppidFromGameCard | js/core.js:352-357 | A result is never 0. |
| GameIds.ImgSrcReads | js/core.js:321-325 | An image URL of either host, `…/apps/<digits>/…`, yields the value of the digits. |
| GameIds.UriQueryReads | js/core.js:327-331 | A text starting `appid=<digits>` yields the value of the digits. |
| GameIds.FromIdReads | js/core.js:346-350 | An element id starting `game_<digits>` yields the value of the digits. |
| GameIds.GameCardReads | js/core.js:352-357 | A path starting `/gamecards/<digits>` yields the value of the digits. |
| GameIds.HelpersNeedTheirHead | js/core.js:321-357 | A text in which a helper's pattern head occurs at no position yields null from that helper. |
| GameIds.TrimStoreId | js/core.js:317-319 | Without a '/', it is `Number` of the whole string. |
| GameIds.TrimStoreIdOfKind | js/core.js:317-319 | `trimStoreId("<kind>/<n>")` is n. |
| GameIds.AppidsIn | js/core.js:333-344 | Every id collected is nonzero. |
| GameIds.AppidsStep | js/core.js:336-342 | One `exec` round adds the parsed id of the leftmost match, if `parseId` accepts it, and the search resumes at the match's end. |
| GameIds.GetAppids | js/core.js:333-344 | The exec loop collects exactly the ids of the successive matches. |
| GameIds.AppidsOfLink | js/core.js:333-344 | A store or community app link contributes its id, and the search goes on after the link. |
| SyncedStore.Get | js/core.js:405-413 | A cached value that is not undefined is returned. Otherwise the default is returned. Undefined comes back only when neither has a value. |
| SyncedStore.Without | js/core.js:421-427 | The key order with exactly that key removed, still free of repeats. |
| SyncedStore.SetWellFormed | js/core.js:415-419 | `set` keeps the key order in step with the cache. |
| SyncedStore.RemoveWellFormed | js/core.js:421-427 | `remove` keeps the key order in step with the cache. |
| SyncedStore.SetThenGet | js/core.js:405-419 | `get` after `set` returns the value set, or the default when the value set is undefined. |
| SyncedStore.SetOtherKey | js/core.js:415-419 | Setting one key changes no other key's reading. |
| SyncedStore.GetMissing | js/core.js:405-413 | A key not in the cache reads as its default. |
| SyncedStore.RemoveThenHas | js/core.js:402-431 | After `remove`, the key is absent, not listed, and reads as its default. |
| SyncedStore.KeysAreCacheKeys | js/core.js:429-431 | `keys(p)` lists exactly the cached keys that start with p, each once. |
| SyncedStore.KeysAfterFreshSet | js/core.js:415-431 | A key set for the first time is listed after all earlier keys. |
| SyncedStore.ClearEmpties | js/core.js:433-438 | After `clear`, nothing is cached or listed, and every key reads as its default. |
| SyncedStore.SyncedStorage.constructor | js/core.js:405-413 | The cache starts empty. |
| SyncedStore.SyncedStorage.SetKey | js/core.js:415-419 | The cache becomes the old cache with the key set. |
| SyncedStore.SyncedStorage.RemoveKey | js/core.js:421-427 | The cache becomes the old cache without the key. |
| SyncedStore.SyncedStorage.ClearAll | js/core.js:433-438 | The cache becomes empty. |
| ProgressBars.AfterCreate | js/content/common.js:161-175 | Nothing happens unless `show_progressbar` is on and the container is on the page. |
| ProgressBars.ReachesFullIff | js/content/common.js:199-219 | The share `100 * completed / initiated` reaches 100 exactly when some requests were initiated and at least as many completed. |
| ProgressBars.LoadingStartsAtZero | js/content/common.js:177-185 | `loading` sets the counters to 0 of 0 with the loading title, and keeps the failure count. |
| ProgressBars.FinishCompletesIff | js/content/common.js:193-219 | A finished request completes the bar and stops the counting exactly when the counts meet. Otherwise only the completed count goes up. |
| ProgressBars.StartCompletesIff | js/content/common.js:187-219 | A started request completes the bar only when more requests had already completed than were initiated. Otherwise only the initiated count goes up. |
| ProgressBars.StoppedCountingIgnoresRequests | js/content/common.js:187-197 | Once the counting has stopped, no sequence of request starts and finishes changes the bar. |
| ProgressBars.FailuresAreCounted | js/content/common.js:232-251 | The failure count goes up by exactly the number of `failed` calls, and the error note shows it. |
| ProgressBars.ErrorOutranksWarning | js/content/common.js:221-251 | After a failure no warning note is shown, and a later outage adds none. |
| ProgressBars.CountingPreserved | js/content/common.js:177-251 | No sequence of `loading`, `progress`, `startRequest`, `finishRequest`, `serverOutage` and `failed` calls breaks the counters' invariant: while requests are counted, the bar is shown and not complete. These are all the calls the page makes after its single `create`, which comes before `loading` (js/content/common.js:2371-2372). |
| ProgressBars.CreateWhileCounting | js/content/common.js:161-175 | A second `create` while requests are counted marks the bar complete and keeps the counters, so `CountingPreserved` does not extend to `create`. |
| ProgressBars.ProgressBar.constructor | js/content/common.js:160-252 | The bar starts absent, with no counters and no failures. |
| ProgressBars.ProgressBar.Create | js/content/common.js:161-175 | The new state is as `AfterCreate` describes. |
| ProgressBars.ProgressBar.Loading | js/content/common.js:177-185 | The new state is as `AfterLoading` describes. |
| ProgressBars.ProgressBar.ShowProgress | js/content/common.js:199-219 | The new state is as `AfterProgress` describes. |
| ProgressBars.ProgressBar.StartRequest | js/content/common.js:187-191 | The new state is as `AfterStart` describes. |
| ProgressBars.ProgressBar.FinishRequest | js/content/common.js:193-197 | The new state is as `AfterFinish` describes. |
| ProgressBars.ProgressBar.ServerOutage | js/content/common.js:221-230 | The new state is as `AfterOutage` describes. |
| ProgressBars.ProgressBar.Failed | js/content/common.js:232-251 | The new state is as `AfterFailure` describes. |
| SteamCurrencies.MakeCurrency | js/content/common.js:667-703 | Construction fails exactly when the record has no `format`. The id is copied. Every other member, and every member of `format`, is the given value, or else the constructor's default: "USD", "$", "Default Currency", 100, 1, then 2 places, zero decimals shown, "$", ",", groups of 3, "." and the symbol in front. |
| SteamCurrencies.MakeCurrencyOfRecord | js/content/common.js:667-703 | A record that gives every member builds exactly the currency it describes, so no default overrides a given value. |
| SteamCurrencies.EmptyRecordIsUsd | js/content/common.js:667-703 | A record with only an id and an empty format describes US dollars. |
| SteamCurrencies.GroupsConcatenate | js/content/common.js:724-728 | The digit groups concatenate back to the digits. |
| SteamCurrencies.GroupSizes | js/content/common.js:724-728 | Every group except the first has exactly `groupSize` digits. The first has 1 to `groupSize`. |
| SteamCurrencies.GroupsSplitBack | js/content/common.js:724-730 | Splitting the grouped digits at a separator that is not among them gives the groups back. |
| SteamCurrencies.GroupDigits | js/content/common.js:724-728 | The unshift loop cuts exactly the digit groups. |
| SteamCurrencies.Stringify | js/content/common.js:719-744 | The method produces the formatted amount: sign, symbol before or after, grouped digits, and the decimals unless they are hidden. |
| SteamCurrencies.HidesZeroDecimals | js/content/common.js:730-735 | With `hidePlacesWhenZero`, all-zero decimals are dropped together with their separator. |
| SteamCurrencies.UsdLayout | js/content/common.js:719-744 | A dollar amount prints as "$", the digits grouped in threes with commas, ".", and the cents. |
| SteamCurrencies.Placeholder | js/content/common.js:745-761 | The two counting loops produce the placeholder text. |
| SteamCurrencies.AppendCounting | js/content/common.js:748-750 | n rounds of `str += cur; ++cur` append the numbers start … start+n-1 and leave the counter at start+n. |
| SteamCurrencies.CountingDigits | js/content/common.js:745-761 | While the count stays below 10, it writes the single digits start, start+1, …. |
| SteamCurrencies.PlaceholderIsStringified | js/content/common.js:745-761 | For up to 8 digits in all, the placeholder is exactly how `stringify` prints the amount it shows. |
| SteamCurrencies.PlaceholderIsStringifiedWhole | js/content/common.js:745-754 | Without decimal places, the placeholder is the grouped rendering of 1 followed by the digits 2 … g+1. |
| SteamCurrencies.CountedDecimalsShown | js/content/common.js:756-759 | The placeholder's decimals are shown even under `hidePlacesWhenZero`. |
| CurrencyLookup.CompileSymbol | js/content/common.js:817 | Each symbol becomes an alternative in which a '.' matches any character. |
| CurrencyLookup.FirstAlternative | js/content/common.js:798 | The alternative found is the first, in order, that matches at that position, and none is found only if none matches. |
| CurrencyLookup.Index | js/content/common.js:810-814 | One round of `init` leaves the default and the expression alone. |
| CurrencyLookup.FormattedPrefix | js/content/common.js:809-815 | `init` gets through exactly the records before the first one without a format. |
| CurrencyLookup.Finish | js/content/common.js:816-817 | The default becomes the currency with id 1, and the expression becomes the indexed symbols in order. |
| CurrencyLookup.IndexedById | js/content/common.js:812 | The id index holds the last record with each id. |
| CurrencyLookup.IndexedByAbbr | js/content/common.js:811 | The abbreviation index holds the last record with each abbreviation. |
| CurrencyLookup.IndexedBySymbol | js/content/common.js:813-814 | The symbol index holds the last record with each truthy symbol. |
| CurrencyLookup.InitLookups | js/content/common.js:785-817 | After a complete `init`, `fromNumber`, `fromType` and `fromSymbol` find the last record with the key, and otherwise the last record with id 1. |
| CurrencyLookup.InitStopsAtMissingFormat | js/content/common.js:807-817 | A record without a format stops `init`: the records before it are indexed, and no default is set. |
| CurrencyLookup.InitCoherent | js/content/common.js:807-817 | Whatever records are read, the expression has one alternative per indexed symbol and no other. |
| CurrencyLookup.FromStringLeadingSymbol | js/content/common.js:797-802 | A price starting with the expression's first symbol, written without a point, gets that symbol's currency. |
| CurrencyLookup.SearchFindsAlternative | js/content/common.js:798-801 | What `match` returns is a piece of the price that one alternative matches whole. |
| CurrencyLookup.PointMatchesAnyCharacter | js/content/common.js:817 | A '.' in a symbol matches any character except a line terminator. |
| CurrencyLookup.LookupsBeforeInit | js/content/common.js:782-802 | Before `init`, every lookup answers null. |
| CurrencyLookup.CurrencyRegistry.constructor | js/content/common.js:777-783 | The indices start empty, with no default and no expression. |
| CurrencyLookup.CurrencyRegistry.Add | js/content/common.js:810-814 | One turn of the loop indexes the currency as `Index` describes. |
| CurrencyLookup.CurrencyRegistry.Init | js/content/common.js:807-817 | The registry ends as `AfterInit` describes, and the call succeeds exactly when every record has a format. |
| Cookies.EntryOf | js/content/common.js:513-514 | A field without '=' is all name, trimmed, and its value is "undefined". Otherwise the name is the text before the first '=', trimmed, and the value is the text after it up to the next '=', or to the end of the field. |
| Cookies.Entries | js/content/common.js:513 | The cookie text always yields at least one field. |
| Cookies.LoadedKeysTrimmed | js/content/common.js:511-517 | Every name `init` caches is trimmed. |
| Cookies.LoadFills | js/content/common.js:511-517 | A load without error caches at least one cookie, including the last field's name. |
| Cookies.InitRunsOnce | js/content/common.js:481-490 | After a `get` that did not throw, the cookie text is never read again. |
| Cookies.SetThenGet | js/content/common.js:481-502 | `get` finds the trimmed value `set` stored, under any spelling of the name that trims the same. |
| Cookies.RemoveThenGet | js/content/common.js:481-509 | After `remove`, `get` returns the default, unless the cache became empty. In that case the cookie text is read again. |
| Cookies.ValueCutAtEquals | js/content/common.js:513-515 | The value ends at the second '='. A field without '=' reads as "undefined". |
| Cookies.EntriesOfJoined | js/content/common.js:513 | Reading a cookie text of `name=value` fields joined by ';' gives the fields back. |
| Cookies.LastFieldWins | js/content/common.js:511-517 | A name is cached exactly when some field has it. The value is the decoded value of its last field. |
| Cookies.FailedLoadStays | js/content/common.js:511-517 | Once a decoding throws, the later fields change nothing. |
| Cookies.CookieStorage.constructor | js/content/common.js:519 | The cache starts empty. |
| Cookies.CookieStorage.Init | js/content/common.js:511-517 | The cache becomes what loading the cookie text gives. |
| Cookies.CookieStorage.LoadEntries | js/content/common.js:512-516 | The loop caches the fields as `Load` describes. |
| Cookies.CookieStorage.Get | js/content/common.js:481-490 | The result and the new cache are as `AfterGet` describes. |
| Cookies.CookieStorage.Set | js/content/common.js:492-502 | The result and the new cache are as `AfterSet` describes. |
| Cookies.CookieStorage.Remove | js/content/common.js:504-509 | The cache loses the trimmed name. |
| Rewrites.Seconds | js/content/common.js:308 | `Math.trunc(ms / 1000)` rounds toward zero for either sign. |
| Rewrites.ExpiredStaysExpired | js/content/common.js:305-310 | What has expired stays expired as time goes on. |
| Rewrites.ExpiryBoundary | js/content/common.js:305-310 | A nonzero time has not expired exactly when it is at least now minus `expiration` seconds. |
| Rewrites.TrimmedValue | js/content/common.js:2832 | Exactly one `_ASC` or `_DESC` suffix is removed, and a value without one is unchanged. |
| Rewrites.StoredOptionRoundTrip | js/content/common.js:2832-2838 | The stored option gives back the key and the direction it was stored with. |
| Rewrites.StoredOptionStable | js/content/common.js:2834-2838 | Storing again what was read back changes nothing. |
| Rewrites.TrimmedValueRemovesOne | js/content/common.js:2832 | The trimming is not idempotent: "price_ASC_ASC" trims to "price_ASC". |
| Rewrites.InitialChange | js/content/common.js:2792-2794 | The change event fires at creation exactly when the initial option is not "default_ASC". |
| Rewrites.InitialChangeRestores | js/content/common.js:2792-2838 | A sort box built from a stored option restores the key and the direction. |
| Rewrites.DefaultTabLinks | js/content/common.js:1380-1395 | Only the selected links change, and only in their path. |
| Rewrites.DefaultTabPathShape | js/content/common.js:1384-1392 | An app page path gets exactly one slash, the tab, and a trailing slash. |
| Rewrites.DefaultTabPathIdempotent | js/content/common.js:1384-1392 | Running the rewrite again changes nothing. |
| Rewrites.MarkerFrom | js/content/common.js:1234 | The position found is the first one from `i` on where the `/linkfilter/?url=` marker starts, with no line terminator before it. No position is found exactly when every marker from `i` on has a line terminator before it. |
| Rewrites.StripLinkfilter | js/content/common.js:1234 | The link is left alone exactly when every occurrence of the marker after the first character has a line terminator before it. Otherwise the result is the text after the first such marker, which is what `^.+?` followed by the marker removes. |
| Rewrites.StripFilteredLink | js/content/common.js:1234 | `prefix/linkfilter/?url=target` becomes the target. |
| Rewrites.StripWithoutMarker | js/content/common.js:1241 | A link in which the marker does not occur is left alone. |
| AppStatus.Tabulate | js/content/common.js:142-150 | The lookup has one entry per id, holding that id's value. |
| AppStatus.DsStatusOf | js/content/common.js:2028-2036 | Ignored and wishlisted follow the flags. Ownership is read from the app list for an app id, from the package list for a package id, and is undefined otherwise. |
| AppStatus.DynamicStoreStatus | js/content/common.js:2008-2051 | The single-id form succeeds exactly when the background answers. Ownership is defined only for app and package ids. |
| AppStatus.DynamicStoreStatuses | js/content/common.js:2008-2051 | The array form succeeds exactly when the background answers with a list for every trimmed id. The result is then keyed by the untrimmed ids. |
| AppStatus.DsStatusesAgreeWithSingle | js/content/common.js:2008-2051 | Each entry of the array form is what the single-id form gives for its list. |
| AppStatus.DsStatusSharedByTrimmedId | js/content/common.js:2025-2037 | Two ids of the same kind with the same trimmed id get the same status. |
| AppStatus.ItadStatuses | js/content/common.js:116-157 | The call fails exactly when a lookup it makes fails. The collection is asked only when `highlight_collection` is on, and no id is ever waitlisted. |
| AppStatus.ItadStatusOne | js/content/common.js:117-157 | The single-id form: a lookup not made resolves to false, and waitlisted is always false. |
| AppStatus.ItadNeverWaitlisted | js/content/common.js:116-157 | Neither form reports an id as waitlisted, and without a connection neither reports an id as collected. |
| AppStatus.StatusObject | js/content/common.js:1544-1550 | A gift, a guest pass and a coupon are read from the gift list and the coupon answer. |
| AppStatus.InventoryStatuses | js/content/common.js:1543-1579 | One entry per id. A rejected call or any missing gift list gives every id the failed status, so the inventory never fails. |
| AppStatus.InventoryStatus | js/content/common.js:1567-1577 | The single-id form gives the failed status on an error and otherwise keeps the coupon answer. |
| AppStatus.InventoryAgreesWithSingle | js/content/common.js:1543-1579 | Each entry of the array form is what the single-id form gives. |
| AppStatus.InventoryFailsTogether | js/content/common.js:1561-1574 | One missing gift list costs every id its status. |
| Highlights.AddTagAsWritten | js/content/common.js:1608-1694 | As written, each call appends the badge to the node's container and changes no other node. |
| Highlights.TaggingTwiceDuplicates | js/content/common.js:1689-1693 | As written, tagging a node twice shows the tag twice. |
| Highlights.AddTag | js/content/common.js:1608-1694 | The corrected `addTag` keeps the number of nodes. The highlighter does not use it. |
| Highlights.AddTagEffect | js/content/common.js:1608-1694 | The tag stylesheet is in place, and the node gains the badge only if it does not show it already. No other node and none of the node's classes change. |
| Highlights.TagsStayDistinct | js/content/common.js:1689-1693 | With the guard fixed, a node shows each tag at most once, and tagging again changes nothing. |
| Highlights.HighlightItem | js/content/common.js:1777-1788 | `highlightItem` marks, highlights and tags as its settings say. It tags through `addTag` as written. |
| Highlights.HighlightItemEffect | js/content/common.js:1696-1788 | The node is marked checked. It gets the highlight classes iff `highlight_<name>` is on. When `tag_<name>` is on, one more badge named `<name>` is appended, whether or not its container already shows it. Otherwise its badges are untouched. The stylesheet is added unless a free-to-play node is excluded. No other node and no hiding change. |
| Highlights.HideIf | js/content/common.js:1813-1825 | A result-list row is hidden when the hide setting is on. Nothing else changes. |
| Highlights.Apply | js/content/common.js:1790-1833 | Each `highlight*` wrapper applied to one node. |
| Highlights.ApplyMonotone | js/content/common.js:1790-1833 | A call changes only its node, and never removes a class, a hiding or the stylesheet. |
| Highlights.ApplyKeepsHighlights | js/content/common.js:1790-1833 | A highlight class survives every later call. |
| Highlights.RescanStopsOnHighlight | js/content/common.js:1973 | A highlighted node drops out of the `:not(.es_highlighted)` rescan. |
| Highlights.Cascade | js/content/common.js:1713-1729 | The colour is the last type in stylesheet order whose class the node carries; it is absent only if the node carries none. |
| Highlights.EffectiveHighlight | js/content/common.js:1713-1729 | The colour shown is a type whose class the node carries, and only once the stylesheet is in place. |
| Highlights.LaterTypeWins | js/content/common.js:1592-1601 | Of two types a node carries, the one later in `highlightTypes` is shown. |
| Highlights.OwnedBeatsWishlist | js/content/common.js:1592-1601 | An owned node never shows the wishlist or not-interested colour. |
| Highlights.HighlightAtLeast | js/content/common.js:1713-1788 | A highlight that is switched on shows at least that type's precedence. |
| HighlightPipeline.StoreIdFrom | js/content/common.js:1863-1874 | An app id wins over a bundle id, which wins over a package id. There is no store id exactly when all three are missing. |
| HighlightPipeline.StoreIdTrims | js/content/common.js:1905-1906 | Trimming the store id gives back the id it was built from. |
| HighlightPipeline.FindGroup | js/content/common.js:1876-1883 | The entry found has the store id, and none is found only if the store id is absent. |
| HighlightPipeline.CollectGroups | js/content/common.js:1861-1884 | `storeIdsMap` lists each store id once, in first-seen order, with its tiles' targets in tile order. Tiles without a store id are left out. |
| HighlightPipeline.TargetsInRange | js/content/common.js:1861-1884 | Every target in the map is one of the page's nodes. |
| HighlightPipeline.Fetch | js/content/common.js:1908-1912 | `Promise.all` rejects exactly when the dynamic store (if asked) or ITAD rejects. The inventory answer is kept, and no id is waitlisted. |
| HighlightPipeline.TrimAll | js/content/common.js:1906 | `map(trimStoreId)`, element by element. |
| HighlightPipeline.GroupNodeReceives | js/content/common.js:1914-1929 | A node that occurs once in a group receives exactly the group's calls, in order. |
| HighlightPipeline.CallsInFixedOrder | js/content/common.js:1914-1929 | A group receives each call at most once, in the fixed order, exactly when its flag is set. It never receives the non-discount call. |
| HighlightPipeline.RejectionKeepsPassOnly | js/content/common.js:1908-1912 | A rejection from the dynamic store or ITAD leaves only the pass's own highlights. |
| HighlightPipeline.NoWaitlistCalls | js/content/common.js:1922-1923 | No node is ever highlighted as waitlisted. |
| HighlightPipeline.Highlighter.constructor | js/content/common.js:1605-1606 | The page starts with neither stylesheet loaded. |
| HighlightPipeline.Highlighter.AddTagTo | js/content/common.js:1608-1694 | The page changes as `AddTagAsWritten` describes: the badge is always appended. |
| HighlightPipeline.Highlighter.HighlightItemAt | js/content/common.js:1777-1788 | The page changes as `HighlightItem` describes. |
| HighlightPipeline.Highlighter.ApplyCall | js/content/common.js:1790-1833 | The page changes as `Apply` describes. |
| HighlightPipeline.Highlighter.ForEach | js/content/common.js:1914-1929 | `forEach` applies the call to each target in turn. |
| HighlightPipeline.Highlighter.PassTiles | js/content/common.js:1861-1902 | The pass builds `storeIdsMap` and applies the markup's highlights tile by tile. Store ids come from `getSubid` and `getBundleid` as written. |
| HighlightPipeline.Highlighter.HighlightGroup | js/content/common.js:1914-1929 | A group receives the calls its flags call for, in the fixed order. |
| HighlightPipeline.Highlighter.HighlightGroups | js/content/common.js:1914-1929 | The loop over the groups applies each group's calls. |
| HighlightPipeline.Highlighter.HighlightAndTag | js/content/common.js:1844-1931 | The call succeeds exactly when `Promise.all` resolves. The page ends as the plan describes: the pass, then the group calls. |
| HighlightPipeline.GroupTile | js/content/common.js:1861-1884 | A tile's target is appended under its store id. |

## Left out

- DOM work is not modelled: inserting markup, CSS text and colours, `querySelector` over real documents, and the choice of `nodeToHighlight`. A page is a sequence of node records with classes, badges, a hidden flag and two stylesheet flags.
- `highlightNode`'s free-to-play regex on `innerHTML` is not modelled. It is given as the node's `freeToPlay` flag.
- `highlightNode`'s clean-up of the dynamic store's own marks is not modelled. It re-targets the node for some layouts, removes `.ds_flag` elements, and removes the `ds_flagged` class from the node and from its descendants. So `Highlights.ApplyMonotone`, which says no class is removed, and `Highlights.HighlightItemEffect`, which says no other node changes, speak only of the classes, badges and hiding that the model keeps.
- CurrencyLookup.CompileSymbol: only the '.' of a symbol is read as a metacharacter. The source escapes only `$` before building its `RegExp`, so any other metacharacter in a symbol also keeps its meaning there. The model reads those characters literally.
- `addTag`'s layout-specific placement is not modelled, and neither are several `.es_tags` containers. One container per node is modelled.
- `Background.action`, `fetch` and `Promise.all` are not called. The providers' answers are inputs, with `Err` for a rejection.
- Writes to `document.cookie` and `encodeURIComponent` are not modelled. They affect no state the cache reads. `decodeURIComponent` is a parameter.
- `Date.now` is a parameter.
- A JavaScript string can hold a lone surrogate code unit. A Dafny `char` cannot, so such strings are not modelled, and `CodeUnits` covers only well-formed UTF-16.
- Floating point is not modelled: `toFixed`, `valueOf`, `parseFloat` and `regExp`. `Stringify` takes the digits `toFixed` produced.
- `ProgressBar.progress` does not model pixel widths, nor the clamp of values above 100.
- JavaScript numbers are unbounded integers. Ids above 2^53 lose precision in the source. `Number` is modelled only for optionally signed decimal integers and `None`.
- SteamCurrencies.Stringify: the method requires `groupSize >= 1`, because the source's loop never ends otherwise.
- `Object.keys` lists integer-like keys first in the source. The model keeps insertion order only.
- Parts of `SyncedStorage` are not modelled: `init`, `onChanged`, the adapter's writes, `LocalStorage` and quota errors. These are I/O.
- `checkVersion` returns `_showChangelog`, `onUpdate` and `_migrateSettings` as actions instead of running them.
- `HTML.fragment` and DOMPurify are not modelled.
- The `Sortbox` DOM is not modelled.

## Findings

| source | as written | input that shows it | evidently intended | confidence | as-written member | corrected member |
|---|---|---|---|---|---|---|
| js/core.js:289-315 | `getSubid` and `getBundleid` return `m && parseId(m[2])` for a regex with one capture group, so `m[2]` is undefined and the result is null | the text "store.steampowered.com/sub/123" | `parseId(m[1])`, which gives 123 | not executed | GameIds.SubidOfStoreUrl | GameIds.GetSubidIntended |
| js/content/common.js:1690 | `n.querySelector(\`es_tag_${tag}\`)` lacks the leading '.', so it matches no element, and every call appends another badge | calling `addTag(node, "owned")` twice | the selector `.es_tag_<tag>`, so a tag is shown at most once | not executed | Highlights.TaggingTwiceDuplicates | Highlights.TagsStayDistinct |
