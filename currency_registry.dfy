/**
 * `CurrencyRegistry` of js/content/common.js: three indices over the
 * currency list (by Steam id, by abbreviation, by symbol), the fallback to
 * the currency with id 1 (US dollars), and `fromString`, which finds the
 * first currency symbol in a price text with a regular expression built from
 * the symbol index.
 *
 * The expression is the symbols joined by `|` with only `$` escaped, so a
 * point in a symbol (as in "S/." or "pуб.") matches any character but a line
 * terminator. The model gives only the point this meaning; any other
 * metacharacter a symbol may hold keeps its meaning in the source's
 * expression but is read literally here.
 */
module CurrencyLookup {
  import opened Wrappers
  import opened JsRuntime
  import opened SteamCurrencies

  // ---------------------------------------------------------------------------
  // The symbol expression

  datatype PatternChar = Lit(c: char) | AnyChar

  /** One alternative of the expression: the symbol with `.` left unescaped. */
  function CompileSymbol(symbol: string): (p: seq<PatternChar>)
    ensures |p| == |symbol|
    ensures forall i :: 0 <= i < |symbol| ==> p[i] == if symbol[i] == '.' then AnyChar else Lit(symbol[i])
  {
    if symbol == [] then [] else [if symbol[0] == '.' then AnyChar else Lit(symbol[0])] + CompileSymbol(symbol[1..])
  }

  function CompileAll(symbols: seq<string>): (ps: seq<seq<PatternChar>>)
    ensures |ps| == |symbols|
    ensures forall k :: 0 <= k < |symbols| ==> ps[k] == CompileSymbol(symbols[k])
  {
    if symbols == [] then [] else [CompileSymbol(symbols[0])] + CompileAll(symbols[1..])
  }

  /** `new RegExp(keys.join("|"))`: no keys give the empty expression, one empty alternative. */
  function Alternatives(symbols: seq<string>): (ps: seq<seq<PatternChar>>)
    ensures |ps| >= 1
  {
    if symbols == [] then [[]] else CompileAll(symbols)
  }

  predicate CharMatches(p: PatternChar, c: char) {
    match p
    case Lit(d) => c == d
    case AnyChar => !IsLineTerminator(c)
  }

  /** The alternative matches a prefix of the text. */
  predicate MatchesPrefix(text: string, p: seq<PatternChar>)
    decreases |p|
  {
    p == [] || (text != [] && CharMatches(p[0], text[0]) && MatchesPrefix(text[1..], p[1..]))
  }

  /** The first alternative, in order, that matches at the start of the text. */
  function FirstAlternative(text: string, alts: seq<seq<PatternChar>>): (k: Option<nat>)
    ensures k.Some? ==> k.value < |alts| && MatchesPrefix(text, alts[k.value])
    ensures k.Some? ==> forall j :: 0 <= j < k.value ==> !MatchesPrefix(text, alts[j])
    ensures k.None? ==> forall j :: 0 <= j < |alts| ==> !MatchesPrefix(text, alts[j])
  {
    if alts == [] then None
    else if MatchesPrefix(text, alts[0]) then Some(0)
    else
      var k := FirstAlternative(text, alts[1..]);
      if k.Some? then Some(k.value + 1) else None
  }

  lemma {:induction false} MatchedPrefixFits(text: string, p: seq<PatternChar>)
    requires MatchesPrefix(text, p)
    ensures |p| <= |text|
    decreases |p|
  {
    if p != [] {
      MatchedPrefixFits(text[1..], p[1..]);
    }
  }

  /**
   * `text.match(re)[0]`: the leftmost position where some alternative
   * matches, and there the first alternative in order; `None` is no match.
   */
  function Search(text: string, alts: seq<seq<PatternChar>>): Option<string>
    decreases |text|
  {
    var k := FirstAlternative(text, alts);
    if k.Some? then
      MatchedPrefixFits(text, alts[k.value]);
      Some(text[..|alts[k.value]|])
    else if text == [] then None
    else Search(text[1..], alts)
  }

  // ---------------------------------------------------------------------------
  // The registry's state

  datatype Registry = Registry(
    byId: map<Option<int>, SteamCurrency>,     // indices.id, keyed by the record's id (undefined included)
    byAbbr: map<string, SteamCurrency>,        // indices.abbr
    bySymbol: map<string, SteamCurrency>,      // indices.symbols
    symbolOrder: seq<string>,                  // Object.keys(indices.symbols)
    defaultCurrency: Option<SteamCurrency>,
    pattern: Option<seq<seq<PatternChar>>>)    // re; None while it is null

  const EmptyRegistry: Registry := Registry(map[], map[], map[], [], None, None)

  function Lookup<K>(m: map<K, SteamCurrency>, k: K): (r: Option<SteamCurrency>)
    ensures r.Some? <==> k in m
    ensures r.Some? ==> r.value == m[k]
  {
    if k in m then Some(m[k]) else None
  }

  /** `fromSymbol`: the indexed currency, else the default. */
  function FromSymbol(reg: Registry, symbol: string): Option<SteamCurrency> {
    Lookup(reg.bySymbol, symbol).OrElse(reg.defaultCurrency)
  }

  /** `fromType`: by abbreviation, else the default. */
  function FromType(reg: Registry, abbr: string): Option<SteamCurrency> {
    Lookup(reg.byAbbr, abbr).OrElse(reg.defaultCurrency)
  }

  /** `fromNumber`: by Steam id, else the default. */
  function FromNumber(reg: Registry, id: Option<int>): Option<SteamCurrency> {
    Lookup(reg.byId, id).OrElse(reg.defaultCurrency)
  }

  /** While `re` is null, `price.match(null)` looks for the text "null". */
  const NullPattern: seq<seq<PatternChar>> := [CompileSymbol("null")]

  /** `fromString`: the currency of the first symbol found in the price, else the default. */
  function FromString(reg: Registry, price: string): Option<SteamCurrency> {
    match Search(price, reg.pattern.GetOr(NullPattern))
    case None => reg.defaultCurrency
    case Some(found) => FromSymbol(reg, found)
  }

  /** One round of `init`'s loop: index the currency by abbreviation, id and, when it is truthy, symbol. */
  function Index(reg: Registry, c: SteamCurrency): (r: Registry)
    ensures r.defaultCurrency == reg.defaultCurrency && r.pattern == reg.pattern
  {
    var reg1 := reg.(byAbbr := reg.byAbbr[c.abbr := c], byId := reg.byId[c.id := c]);
    if c.symbol == "" then reg1
    else reg1.(bySymbol := reg.bySymbol[c.symbol := c],
               symbolOrder := if c.symbol in reg.bySymbol then reg.symbolOrder else reg.symbolOrder + [c.symbol])
  }

  predicate AllFormatted(raws: seq<RawCurrency>) {
    forall k :: 0 <= k < |raws| ==> raws[k].format.Some?
  }

  /** The records indexed one after another. */
  function Indexed(reg: Registry, raws: seq<RawCurrency>): (r: Registry)
    requires AllFormatted(raws)
    ensures r.defaultCurrency == reg.defaultCurrency && r.pattern == reg.pattern
    decreases |raws|
  {
    if raws == [] then reg
    else Index(Indexed(reg, raws[..|raws| - 1]), MakeCurrency(raws[|raws| - 1]).value)
  }

  /** How many records the loop gets through before the first one without a format. */
  function FormattedPrefix(raws: seq<RawCurrency>): (n: nat)
    ensures n <= |raws| && AllFormatted(raws[..n])
    ensures n < |raws| ==> raws[n].format.None?
  {
    if raws == [] || raws[0].format.None? then 0
    else
      var n := FormattedPrefix(raws[1..]);
      assert raws[..n + 1] == [raws[0]] + raws[1..][..n];
      n + 1
  }

  /** The statements after the loop: the default from id 1 and the symbol expression. */
  function Finish(reg: Registry): (r: Registry)
    ensures r.pattern == Some(Alternatives(reg.symbolOrder))
    ensures r.defaultCurrency == Lookup(reg.byId, Some(1))
  {
    reg.(defaultCurrency := Lookup(reg.byId, Some(1)), pattern := Some(Alternatives(reg.symbolOrder)))
  }

  /**
   * The registry after `init` with the given list: a record without a format
   * throws, so the records before it stay indexed while the default and the
   * expression stay as they were.
   */
  function AfterInit(reg: Registry, raws: seq<RawCurrency>): Registry {
    var n := FormattedPrefix(raws);
    var r := Indexed(reg, raws[..n]);
    if n == |raws| then Finish(r) else r
  }

  // ---------------------------------------------------------------------------
  // The last record wins

  function LastById(raws: seq<RawCurrency>, id: Option<int>): Option<SteamCurrency>
    requires AllFormatted(raws)
    decreases |raws|
  {
    if raws == [] then None
    else
      var c := MakeCurrency(raws[|raws| - 1]).value;
      if c.id == id then Some(c) else LastById(raws[..|raws| - 1], id)
  }

  function LastByAbbr(raws: seq<RawCurrency>, abbr: string): Option<SteamCurrency>
    requires AllFormatted(raws)
    decreases |raws|
  {
    if raws == [] then None
    else
      var c := MakeCurrency(raws[|raws| - 1]).value;
      if c.abbr == abbr then Some(c) else LastByAbbr(raws[..|raws| - 1], abbr)
  }

  function LastBySymbol(raws: seq<RawCurrency>, symbol: string): Option<SteamCurrency>
    requires AllFormatted(raws)
    decreases |raws|
  {
    if raws == [] then None
    else
      var c := MakeCurrency(raws[|raws| - 1]).value;
      if c.symbol == symbol && symbol != "" then Some(c) else LastBySymbol(raws[..|raws| - 1], symbol)
  }

  /** Each index holds the last record with the key; keys no record has keep what was there before. */
  lemma {:induction false} IndexedById(reg: Registry, raws: seq<RawCurrency>, id: Option<int>)
    requires AllFormatted(raws)
    ensures Lookup(Indexed(reg, raws).byId, id) == LastById(raws, id).OrElse(Lookup(reg.byId, id))
    decreases |raws|
  {
    if raws != [] {
      IndexedById(reg, raws[..|raws| - 1], id);
    }
  }

  lemma {:induction false} IndexedByAbbr(reg: Registry, raws: seq<RawCurrency>, abbr: string)
    requires AllFormatted(raws)
    ensures Lookup(Indexed(reg, raws).byAbbr, abbr) == LastByAbbr(raws, abbr).OrElse(Lookup(reg.byAbbr, abbr))
    decreases |raws|
  {
    if raws != [] {
      IndexedByAbbr(reg, raws[..|raws| - 1], abbr);
    }
  }

  lemma {:induction false} IndexedBySymbol(reg: Registry, raws: seq<RawCurrency>, symbol: string)
    requires AllFormatted(raws)
    ensures Lookup(Indexed(reg, raws).bySymbol, symbol) == LastBySymbol(raws, symbol).OrElse(Lookup(reg.bySymbol, symbol))
    decreases |raws|
  {
    if raws != [] {
      IndexedBySymbol(reg, raws[..|raws| - 1], symbol);
    }
  }

  lemma {:induction false} AllFormattedPrefix(raws: seq<RawCurrency>)
    requires AllFormatted(raws)
    ensures FormattedPrefix(raws) == |raws| && raws[..|raws|] == raws
  {
    FormattedPrefixAt(raws, |raws|);
  }

  lemma {:induction false} FormattedPrefixAt(raws: seq<RawCurrency>, n: nat)
    requires n <= |raws| && AllFormatted(raws[..n])
    requires n < |raws| ==> raws[n].format.None?
    ensures FormattedPrefix(raws) == n
    decreases n
  {
    if n > 0 {
      assert raws[0] == raws[..n][0];
      assert raws[1..][..n - 1] == raws[..n][1..];
      FormattedPrefixAt(raws[1..], n - 1);
    }
  }

  /**
   * After a complete `init` on a fresh registry, every lookup finds the last
   * record with its key and otherwise falls back to the last record with id 1.
   */
  lemma {:induction false} InitLookups(raws: seq<RawCurrency>, id: Option<int>, abbr: string, symbol: string)
    requires AllFormatted(raws)
    ensures FromNumber(AfterInit(EmptyRegistry, raws), id) == LastById(raws, id).OrElse(LastById(raws, Some(1)))
    ensures FromType(AfterInit(EmptyRegistry, raws), abbr) == LastByAbbr(raws, abbr).OrElse(LastById(raws, Some(1)))
    ensures FromSymbol(AfterInit(EmptyRegistry, raws), symbol) == LastBySymbol(raws, symbol).OrElse(LastById(raws, Some(1)))
  {
    AllFormattedPrefix(raws);
    IndexedById(EmptyRegistry, raws, id);
    IndexedById(EmptyRegistry, raws, Some(1));
    IndexedByAbbr(EmptyRegistry, raws, abbr);
    IndexedBySymbol(EmptyRegistry, raws, symbol);
  }

  lemma {:induction false} IndexedSnoc(reg: Registry, raws: seq<RawCurrency>, i: nat)
    requires i < |raws| && AllFormatted(raws[..i]) && raws[i].format.Some?
    ensures AllFormatted(raws[..i + 1])
    ensures Indexed(reg, raws[..i + 1]) == Index(Indexed(reg, raws[..i]), MakeCurrency(raws[i]).value)
  {
    assert raws[..i + 1][..i] == raws[..i];
  }

  lemma {:induction false} InitStopsAt(reg: Registry, raws: seq<RawCurrency>, i: nat)
    requires i < |raws| && AllFormatted(raws[..i]) && raws[i].format.None?
    ensures AfterInit(reg, raws) == Indexed(reg, raws[..i])
    ensures !AllFormatted(raws)
  {
    FormattedPrefixAt(raws, i);
  }

  lemma {:induction false} InitCompletes(reg: Registry, raws: seq<RawCurrency>)
    requires AllFormatted(raws)
    ensures AfterInit(reg, raws) == Finish(Indexed(reg, raws))
  {
    AllFormattedPrefix(raws);
  }

  /** A failing record stops `init`: the records before it are indexed, and no default is set on a fresh registry. */
  lemma {:induction false} InitStopsAtMissingFormat(before: seq<RawCurrency>, bad: RawCurrency, after: seq<RawCurrency>)
    requires AllFormatted(before) && bad.format.None?
    ensures AfterInit(EmptyRegistry, before + [bad] + after) == Indexed(EmptyRegistry, before)
    ensures AfterInit(EmptyRegistry, before + [bad] + after).defaultCurrency == None
  {
    var raws := before + [bad] + after;
    assert raws[..|before|] == before;
    FormattedPrefixAt(raws, |before|);
  }

  // ---------------------------------------------------------------------------
  // The symbol index and its key order

  predicate NoDuplicates(s: seq<string>) {
    forall i, j :: 0 <= i < j < |s| ==> s[i] != s[j]
  }

  /** `symbolOrder` lists the keys of the symbol index, each once, and the falsy "" is never a key. */
  ghost predicate Coherent(reg: Registry) {
    (forall s :: s in reg.bySymbol <==> s in reg.symbolOrder)
    && NoDuplicates(reg.symbolOrder)
    && "" !in reg.bySymbol
  }

  lemma {:induction false} IndexCoherent(reg: Registry, c: SteamCurrency)
    requires Coherent(reg)
    ensures Coherent(Index(reg, c))
    ensures c.symbol != "" && c.symbol !in reg.bySymbol ==> Index(reg, c).symbolOrder == reg.symbolOrder + [c.symbol]
    ensures c.symbol == "" || c.symbol in reg.bySymbol ==> Index(reg, c).symbolOrder == reg.symbolOrder
  {
  }

  lemma {:induction false} IndexedCoherent(reg: Registry, raws: seq<RawCurrency>)
    requires Coherent(reg) && AllFormatted(raws)
    ensures Coherent(Indexed(reg, raws))
    decreases |raws|
  {
    if raws != [] {
      IndexedCoherent(reg, raws[..|raws| - 1]);
      IndexCoherent(Indexed(reg, raws[..|raws| - 1]), MakeCurrency(raws[|raws| - 1]).value);
    }
  }

  /** Whatever records `init` reads, the expression has one alternative per indexed symbol and no other. */
  lemma {:induction false} InitCoherent(reg: Registry, raws: seq<RawCurrency>)
    requires Coherent(reg)
    ensures Coherent(AfterInit(reg, raws))
    ensures AllFormatted(raws) ==>
      AfterInit(reg, raws).pattern == Some(Alternatives(AfterInit(reg, raws).symbolOrder))
  {
    var n := FormattedPrefix(raws);
    IndexedCoherent(reg, raws[..n]);
    if AllFormatted(raws) {
      AllFormattedPrefix(raws);
    }
  }

  // ---------------------------------------------------------------------------
  // fromString

  lemma {:induction false} LiteralMatches(symbol: string, rest: string)
    requires '.' !in symbol
    ensures MatchesPrefix(symbol + rest, CompileSymbol(symbol))
    decreases |symbol|
  {
    if symbol != [] {
      assert (symbol + rest)[1..] == symbol[1..] + rest;
      assert CompileSymbol(symbol)[1..] == CompileSymbol(symbol[1..]);
      LiteralMatches(symbol[1..], rest);
    }
  }

  lemma {:induction false} TakeMatched(symbol: string, rest: string)
    ensures (symbol + rest)[..|symbol|] == symbol
  {
  }

  /** A price that starts with the first symbol of the expression, written without a point, is that symbol's currency. */
  lemma {:induction false} FromStringLeadingSymbol(reg: Registry, symbol: string, rest: string)
    requires reg.pattern == Some(Alternatives(reg.symbolOrder))
    requires reg.symbolOrder != [] && reg.symbolOrder[0] == symbol
    requires symbol in reg.bySymbol && '.' !in symbol
    ensures FromString(reg, symbol + rest) == Some(reg.bySymbol[symbol])
  {
    var alts := Alternatives(reg.symbolOrder);
    assert alts[0] == CompileSymbol(symbol);
    LiteralMatches(symbol, rest);
    assert FirstAlternative(symbol + rest, alts) == Some(0);
    TakeMatched(symbol, rest);
  }

  /** What `match` returns is a piece of the price that one of the alternatives matches completely. */
  lemma {:induction false} SearchFindsAlternative(text: string, alts: seq<seq<PatternChar>>)
    requires Search(text, alts).Some?
    ensures var found := Search(text, alts).value;
      exists k :: 0 <= k < |alts| && |found| == |alts[k]| && MatchesPrefix(found, alts[k])
    decreases |text|
  {
    var k := FirstAlternative(text, alts);
    if k.Some? {
      MatchedPrefixFits(text, alts[k.value]);
      PrefixOfMatch(text, alts[k.value]);
    } else {
      SearchFindsAlternative(text[1..], alts);
    }
  }

  lemma {:induction false} PrefixOfMatch(text: string, p: seq<PatternChar>)
    requires MatchesPrefix(text, p) && |p| <= |text|
    ensures MatchesPrefix(text[..|p|], p)
    decreases |p|
  {
    if p != [] {
      assert text[..|p|][1..] == text[1..][..|p| - 1];
      PrefixOfMatch(text[1..], p[1..]);
    }
  }

  /** A point in a symbol stands for any character but a line terminator. */
  lemma {:induction false} PointMatchesAnyCharacter(symbol: string, text: string)
    requires |text| >= |symbol|
    requires forall i :: 0 <= i < |symbol| ==>
      (if symbol[i] == '.' then !IsLineTerminator(text[i]) else text[i] == symbol[i])
    ensures MatchesPrefix(text, CompileSymbol(symbol))
    decreases |symbol|
  {
    if symbol != [] {
      assert CompileSymbol(symbol)[1..] == CompileSymbol(symbol[1..]);
      PointMatchesAnyCharacter(symbol[1..], text[1..]);
    }
  }

  /** Before `init` the registry answers null to every lookup. */
  lemma {:induction false} LookupsBeforeInit(price: string, symbol: string)
    ensures FromString(EmptyRegistry, price) == None && FromSymbol(EmptyRegistry, symbol) == None
  {
  }

  // ---------------------------------------------------------------------------
  // The registry object

  class CurrencyRegistry {
    var byId: map<Option<int>, SteamCurrency>
    var byAbbr: map<string, SteamCurrency>
    var bySymbol: map<string, SteamCurrency>
    var symbolOrder: seq<string>
    var defaultCurrency: Option<SteamCurrency>
    var pattern: Option<seq<seq<PatternChar>>>

    function State(): Registry
      reads this
    {
      Registry(byId, byAbbr, bySymbol, symbolOrder, defaultCurrency, pattern)
    }

    constructor ()
      ensures State() == EmptyRegistry
    {
      byId, byAbbr, bySymbol, symbolOrder := map[], map[], map[], [];
      defaultCurrency, pattern := None, None;
    }

    /** The body of `init`'s loop for one currency. */
    method Add(c: SteamCurrency)
      modifies this
      ensures State() == Index(old(State()), c)
    {
      byAbbr := byAbbr[c.abbr := c];
      byId := byId[c.id := c];
      if c.symbol != "" {
        if c.symbol !in bySymbol {
          symbolOrder := symbolOrder + [c.symbol];
        }
        bySymbol := bySymbol[c.symbol := c];
      }
    }

    /** `CurrencyRegistry.init` on the list the background page returned. */
    method Init(raws: seq<RawCurrency>) returns (r: Result<()>)
      modifies this
      ensures State() == AfterInit(old(State()), raws)
      ensures r.Ok? <==> AllFormatted(raws)
    {
      ghost var start := State();
      for i := 0 to |raws|
        invariant AllFormatted(raws[..i])
        invariant State() == Indexed(start, raws[..i])
      {
        var made := MakeCurrency(raws[i]);
        if made.Err? {
          InitStopsAt(start, raws, i);
          return Err(made.error);
        }
        IndexedSnoc(start, raws, i);
        Add(made.value);
      }
      assert raws[..|raws|] == raws;
      InitCompletes(start, raws);
      defaultCurrency := Lookup(byId, Some(1));
      pattern := Some(Alternatives(symbolOrder));
      r := Ok(());
    }
  }
}
