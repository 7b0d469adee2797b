/**
 * `SteamCurrency` of js/content/common.js: a currency record as the
 * background page delivers it, filled in with the constructor's defaults, and
 * the two ways it prints an amount: `stringify` (grouping, the rule that
 * hides zero decimals, the symbol before or after) and `placeholder` (the
 * sample amount shown in input fields).
 *
 * `stringify` starts from `Math.abs(value).toFixed(places)`; the model takes
 * that string and whether `value < 0` as its inputs.
 */
module SteamCurrencies {
  import opened Wrappers
  import opened JsRuntime

  /** The `format` member of a record; `None` is a missing member, which takes its default. */
  datatype RawFormat = RawFormat(
    places: Option<int>,
    hidePlacesWhenZero: Option<bool>,
    symbolFormat: Option<string>,
    thousand: Option<string>,
    group: Option<int>,
    decimal: Option<string>,
    right: Option<bool>)

  /**
   * A record of the currency list. A symbol given as `null` (CNY) is written
   * as the empty string: both leave the symbol falsy.
   */
  datatype RawCurrency = RawCurrency(
    id: Option<int>,
    abbr: Option<string>,
    symbol: Option<string>,
    hint: Option<string>,
    multiplier: Option<int>,
    unit: Option<int>,
    format: Option<RawFormat>)

  datatype Format = Format(
    decimalPlaces: int,
    hidePlacesWhenZero: bool,
    symbol: string,
    groupSeparator: string,
    groupSize: int,
    decimalSeparator: string,
    postfix: bool)

  datatype SteamCurrency = SteamCurrency(
    id: Option<int>,
    abbr: string,
    symbol: string,
    hint: string,
    multiplier: int,
    unit: int,
    format: Format)

  /** The format of United States dollars, which is also every default. */
  const UsdFormat: Format := Format(2, false, "$", ",", 3, ".", false)

  /**
   * `new SteamCurrency(record)`. The nested `format` pattern has no default
   * of its own, so a record without `format` makes the destructuring throw.
   */
  function MakeCurrency(raw: RawCurrency): (r: Result<SteamCurrency>)
    ensures r.Err? <==> raw.format.None?
    ensures r.Ok? ==> r.value.id == raw.id
    ensures r.Ok? ==> r.value.abbr == raw.abbr.GetOr("USD")
    ensures r.Ok? ==> r.value.symbol == raw.symbol.GetOr("$")
    ensures r.Ok? ==> r.value.hint == raw.hint.GetOr("Default Currency")
    ensures r.Ok? ==> r.value.multiplier == raw.multiplier.GetOr(100)
    ensures r.Ok? ==> r.value.unit == raw.unit.GetOr(1)
    ensures r.Ok? ==> r.value.format.decimalPlaces == raw.format.value.places.GetOr(2)
    ensures r.Ok? ==> r.value.format.hidePlacesWhenZero == raw.format.value.hidePlacesWhenZero.GetOr(false)
    ensures r.Ok? ==> r.value.format.symbol == raw.format.value.symbolFormat.GetOr("$")
    ensures r.Ok? ==> r.value.format.groupSeparator == raw.format.value.thousand.GetOr(",")
    ensures r.Ok? ==> r.value.format.groupSize == raw.format.value.group.GetOr(3)
    ensures r.Ok? ==> r.value.format.decimalSeparator == raw.format.value.decimal.GetOr(".")
    ensures r.Ok? ==> r.value.format.postfix == raw.format.value.right.GetOr(false)
  {
    if raw.format.None? then Err("TypeError: cannot destructure the missing format")
    else
      var f := raw.format.value;
      Ok(SteamCurrency(
        raw.id,
        raw.abbr.GetOr("USD"),
        raw.symbol.GetOr("$"),
        raw.hint.GetOr("Default Currency"),
        raw.multiplier.GetOr(100),
        raw.unit.GetOr(1),
        Format(
          f.places.GetOr(UsdFormat.decimalPlaces),
          f.hidePlacesWhenZero.GetOr(UsdFormat.hidePlacesWhenZero),
          f.symbolFormat.GetOr(UsdFormat.symbol),
          f.thousand.GetOr(UsdFormat.groupSeparator),
          f.group.GetOr(UsdFormat.groupSize),
          f.decimal.GetOr(UsdFormat.decimalSeparator),
          f.right.GetOr(UsdFormat.postfix))))
  }

  const EmptyFormat: RawFormat := RawFormat(None, None, None, None, None, None, None)

  /** A record that gives nothing but an id and an empty format describes US dollars. */
  lemma {:induction false} EmptyRecordIsUsd(id: Option<int>)
    ensures MakeCurrency(RawCurrency(id, None, None, None, None, None, Some(EmptyFormat)))
      == Ok(SteamCurrency(id, "USD", "$", "Default Currency", 100, 1, UsdFormat))
  {
  }

  /** A currency written back as a record that gives every member. */
  function RecordOf(c: SteamCurrency): RawCurrency {
    var f := c.format;
    RawCurrency(c.id, Some(c.abbr), Some(c.symbol), Some(c.hint), Some(c.multiplier), Some(c.unit),
      Some(RawFormat(Some(f.decimalPlaces), Some(f.hidePlacesWhenZero), Some(f.symbol), Some(f.groupSeparator),
                     Some(f.groupSize), Some(f.decimalSeparator), Some(f.postfix))))
  }

  /** A record that gives every member makes the currency it describes: no default overrides a given value. */
  lemma {:induction false} MakeCurrencyOfRecord(c: SteamCurrency)
    ensures MakeCurrency(RecordOf(c)) == Ok(c)
  {
  }

  // ---------------------------------------------------------------------------
  // Digit grouping

  /**
   * The groups `stringify` cuts from the integer digits: `groupSize`
   * characters at a time from the right, the rest in front.
   */
  function Groups(s: string, size: int): (g: seq<string>)
    requires size >= 1
    ensures |g| >= 1
    decreases |s|
  {
    if |s| <= size then [s] else Groups(s[..|s| - size], size) + [s[|s| - size..]]
  }

  lemma {:induction false} JoinSnoc(parts: seq<string>, x: string, sep: string)
    requires |parts| >= 1
    ensures Join(parts + [x], sep) == Join(parts, sep) + sep + x
    decreases |parts|
  {
    if |parts| > 1 {
      assert (parts + [x])[1..] == parts[1..] + [x];
      JoinSnoc(parts[1..], x, sep);
    }
  }

  /** The groups concatenate back to the digits they were cut from. */
  lemma {:induction false} GroupsConcatenate(s: string, size: int)
    requires size >= 1
    ensures Join(Groups(s, size), "") == s
    decreases |s|
  {
    if |s| > size {
      var head := s[..|s| - size];
      GroupsConcatenate(head, size);
      JoinSnoc(Groups(head, size), s[|s| - size..], "");
      assert head + s[|s| - size..] == s;
    }
  }

  /** Every group but the first has exactly `groupSize` characters; the first has 1 to `groupSize`. */
  lemma {:induction false} GroupSizes(s: string, size: int)
    requires size >= 1
    ensures s != [] ==> 1 <= |Groups(s, size)[0]| <= size
    ensures forall k :: 1 <= k < |Groups(s, size)| ==> |Groups(s, size)[k]| == size
    decreases |s|
  {
    if |s| > size {
      var head := s[..|s| - size];
      GroupSizes(head, size);
      var g := Groups(s, size);
      var gh := Groups(head, size);
      assert g == gh + [s[|s| - size..]];
      assert g[0] == gh[0];
      assert forall k :: 1 <= k < |gh| ==> g[k] == gh[k];
    }
  }

  /** With a one-character separator that is not a digit, splitting the grouped digits gives the groups back. */
  lemma {:induction false} GroupsSplitBack(s: string, size: int, sep: char)
    requires size >= 1 && sep !in s
    ensures Split(Join(Groups(s, size), [sep]), sep) == Groups(s, size)
  {
    GroupsAvoid(s, size, sep);
    SplitOfJoin(Groups(s, size), sep);
  }

  lemma {:induction false} GroupsAvoid(s: string, size: int, sep: char)
    requires size >= 1 && sep !in s
    ensures forall k :: 0 <= k < |Groups(s, size)| ==> sep !in Groups(s, size)[k]
    decreases |s|
  {
    if |s| > size {
      var head := s[..|s| - size];
      assert forall i :: 0 <= i < |head| ==> head[i] == s[i];
      GroupsAvoid(head, size, sep);
      var tail := s[|s| - size..];
      assert forall i :: 0 <= i < |tail| ==> tail[i] == s[|s| - size + i];
    }
  }

  // ---------------------------------------------------------------------------
  // stringify

  /**
   * Whether `stringify` appends the decimals: only with decimal places, and
   * with `hidePlacesWhenZero` only when `parseInt(decimals, 10)` is above 0
   * (a missing decimals part reads as NaN).
   */
  predicate ShowsDecimals(f: Format, decimals: Option<string>) {
    f.decimalPlaces > 0
    && (!f.hidePlacesWhenZero
        || (decimals.Some? && ParseInt(decimals.value, true).Some? && ParseInt(decimals.value, true).value > 0))
  }

  /** The integer digits of the `toFixed` string: what precedes the first point. */
  function WholeOf(fixed: string): string {
    Split(fixed, '.')[0]
  }

  /** The decimals of the `toFixed` string, missing when it has no point. */
  function DecimalsOf(fixed: string): Option<string> {
    var parts := Split(fixed, '.');
    if |parts| >= 2 then Some(parts[1]) else None
  }

  /** The decimal separator and the decimals when they are shown; a missing decimals part prints as nothing. */
  function Fraction(f: Format, decimals: Option<string>): string {
    if ShowsDecimals(f, decimals) then f.decimalSeparator + decimals.GetOr("") else ""
  }

  /**
   * The printed amount: the symbol in front unless it is a postfix, the
   * sign, the grouped integer digits, the fraction, and the symbol last if it
   * is a postfix.
   */
  function Formatted(f: Format, negative: bool, fixed: string, withSymbol: bool): (r: string)
    requires f.groupSize >= 1
  {
    var before := if withSymbol && !f.postfix then f.symbol else "";
    var after := if withSymbol && f.postfix then f.symbol else "";
    before + (if negative then "-" else "") + Join(Groups(WholeOf(fixed), f.groupSize), f.groupSeparator)
      + Fraction(f, DecimalsOf(fixed)) + after
  }

  /**
   * `SteamCurrency.stringify(value, withSymbol)`, with `fixed` the
   * `toFixed` string of the absolute value and `negative` the test
   * `value < 0`. A group size below 1 makes the source's loop run forever,
   * hence the precondition.
   */
  method Stringify(c: SteamCurrency, negative: bool, fixed: string, withSymbol: bool) returns (r: string)
    requires c.format.groupSize >= 1
    ensures r == Formatted(c.format, negative, fixed, withSymbol)
  {
    var f := c.format;
    var parts := Split(fixed, '.');
    var decimals := if |parts| >= 2 then Some(parts[1]) else None;
    var g := GroupDigits(parts[0], f.groupSize);
    var sign := if negative then "-" else "";
    var fraction := "";
    if f.decimalPlaces > 0 {
      if !f.hidePlacesWhenZero || (decimals.Some? && ParseInt(decimals.value, true).Some? && ParseInt(decimals.value, true).value > 0) {
        fraction := f.decimalSeparator + decimals.GetOr("");
      }
    }
    assert fraction == Fraction(f, DecimalsOf(fixed));
    var before, after := "", "";
    if withSymbol {
      if f.postfix {
        after := f.symbol;
      } else {
        before := f.symbol;
      }
    }
    r := before + sign + Join(g, f.groupSeparator) + fraction + after;
  }

  /** The loop of `stringify` that unshifts the digit groups, from the right. */
  method GroupDigits(s: string, size: int) returns (g: seq<string>)
    requires size >= 1
    ensures g == Groups(s, size)
  {
    g := [];
    var j := |s|;
    assert s[..j] == s;
    while j > size
      invariant 0 <= j <= |s|
      invariant Groups(s[..j], size) + g == Groups(s, size)
      decreases j
    {
      assert s[..j][..j - size] == s[..j - size];
      assert s[..j][j - size..] == s[j - size..j];
      g := [s[j - size..j]] + g;
      j := j - size;
    }
    g := [s[..j]] + g;
  }

  /** With `hidePlacesWhenZero`, all-zero decimals are dropped together with their separator. */
  lemma {:induction false} HidesZeroDecimals(f: Format, zeros: string)
    requires f.hidePlacesWhenZero && zeros != []
    requires forall i :: 0 <= i < |zeros| ==> zeros[i] == '0'
    ensures !ShowsDecimals(f, Some(zeros))
  {
    var t := TrimStart(zeros);
    assert zeros[0] == '0' && !IsWhitespace(zeros[0]);
    TrimStartNoLeadingSpace(zeros);
    assert SignedBody(zeros) == (false, zeros);
    ZerosValue(LeadingDigits(zeros, 10));
  }

  lemma {:induction false} ZerosValue(ds: string)
    requires forall i :: 0 <= i < |ds| ==> ds[i] == '0'
    ensures DigitsValue(ds, 10) == 0
    decreases |ds|
  {
    if ds != [] {
      ZerosValue(ds[..|ds| - 1]);
    }
  }

  /** In dollars an amount prints as "$", the digits grouped by threes with commas, "." and the cents. */
  lemma {:induction false} UsdLayout(whole: string, cents: string, negative: bool)
    requires '.' !in whole && '.' !in cents
    ensures Formatted(UsdFormat, negative, whole + "." + cents, true)
      == "$" + (if negative then "-" else "") + Join(Groups(whole, 3), ",") + "." + cents
  {
    PartsOfFixed(whole, cents);
    FractionShown(UsdFormat, cents);
  }

  lemma {:induction false} PartsOfFixed(whole: string, decimals: string)
    requires '.' !in whole && '.' !in decimals
    ensures WholeOf(whole + "." + decimals) == whole
    ensures DecimalsOf(whole + "." + decimals) == Some(decimals)
  {
    SplitAfterField(whole, '.', decimals);
    SplitPlain(decimals, '.');
  }

  // ---------------------------------------------------------------------------
  // placeholder

  /** How `str += cur` writes the counter. */
  function Numeral(n: int): string {
    IntToString(n)
  }

  /** The numbers start, start + 1, … (n of them) written one after another. */
  function Counting(start: int, n: nat): string {
    if n == 0 then "" else Counting(start, n - 1) + Numeral(start + n - 1)
  }

  /**
   * What `placeholder` returns: "1", the group separator, `groupSize`
   * counting digits from 2, and unless there are 0 decimal places the
   * decimal separator and `decimalPlaces` more, the count running on.
   */
  function PlaceholderText(f: Format): string {
    var groupDigits := if f.groupSize < 0 then 0 else f.groupSize;
    var head := "1" + f.groupSeparator + Counting(2, groupDigits);
    if f.decimalPlaces == 0 then head
    else head + f.decimalSeparator + Counting(2 + groupDigits, if f.decimalPlaces < 0 then 0 else f.decimalPlaces)
  }

  /** `SteamCurrency.placeholder`, as its two counting loops build it. */
  method Placeholder(c: SteamCurrency) returns (str: string)
    ensures str == PlaceholderText(c.format)
  {
    var f := c.format;
    var cur;
    str, cur := AppendCounting("1" + f.groupSeparator, 2, f.groupSize);
    if f.decimalPlaces == 0 {
      return;
    }
    str, cur := AppendCounting(str + f.decimalSeparator, cur, f.decimalPlaces);
  }

  /** One loop of `placeholder`: `n` rounds of `str += cur`, each followed by `++cur`. */
  method AppendCounting(head: string, start: int, n: int) returns (str: string, cur: int)
    ensures str == head + Counting(start, if n < 0 then 0 else n)
    ensures cur == start + (if n < 0 then 0 else n)
  {
    str, cur := head, start;
    var rounds: nat := if n < 0 then 0 else n;
    var i: nat := 0;
    while i < rounds
      invariant i <= rounds
      invariant cur == start + i
      invariant str == head + Counting(start, i)
    {
      CountingStep(head, start, i);
      str := str + Numeral(cur);
      i, cur := i + 1, cur + 1;
    }
  }

  lemma {:induction false} CountingStep(head: string, start: int, i: nat)
    ensures head + Counting(start, i + 1) == head + Counting(start, i) + Numeral(start + i)
  {
    var before := Counting(start, i);
    var next := Numeral(start + i);
    assert Counting(start, i + 1) == before + next;
    assert head + (before + next) == head + before + next;
  }

  /** While the count stays below 10, it is the single digits start, start + 1, …. */
  lemma {:induction false} CountingDigits(start: int, n: nat)
    requires 1 <= start && start + n <= 10
    ensures |Counting(start, n)| == n
    ensures AllDecimalDigits(Counting(start, n))
    ensures forall k :: 0 <= k < n ==> Counting(start, n)[k] == DigitChar(start + k)
    decreases n
  {
    if n > 0 {
      CountingDigits(start, n - 1);
      assert Numeral(start + n - 1) == [DigitChar(start + n - 1)];
    }
  }

  /**
   * The placeholder is how `stringify` prints the amount it shows: for a
   * group size g and d decimal places with g + d <= 8, it is the
   * symbol-free rendering of 1 followed by the digits 2 … g+1 and, after
   * the point, the next d digits.
   */
  lemma {:induction false} PlaceholderIsStringified(f: Format)
    requires 1 <= f.groupSize && 0 < f.decimalPlaces && f.groupSize + f.decimalPlaces <= 8
    ensures PlaceholderText(f) == Formatted(f, false,
      "1" + Counting(2, f.groupSize) + "." + Counting(2 + f.groupSize, f.decimalPlaces), false)
  {
    LeadingOneGrouped(f);
    CountedDecimalsShown(f);
    FormattedWithDecimals(f, "1" + Counting(2, f.groupSize), Counting(2 + f.groupSize, f.decimalPlaces));
  }

  /** The placeholder's decimals start at a digit of at least 3, so even `hidePlacesWhenZero` shows them. */
  lemma {:induction false} CountedDecimalsShown(f: Format)
    requires 1 <= f.groupSize && 0 < f.decimalPlaces && f.groupSize + f.decimalPlaces <= 8
    ensures '.' !in Counting(2 + f.groupSize, f.decimalPlaces)
    ensures ShowsDecimals(f, Some(Counting(2 + f.groupSize, f.decimalPlaces)))
  {
    var es := Counting(2 + f.groupSize, f.decimalPlaces);
    CountingDigits(2 + f.groupSize, f.decimalPlaces);
    NoPointInDigits(es);
    assert es[0] == DigitChar(2 + f.groupSize) && es[0] != '0';
    ParseIntOfDigits(es, true);
    DigitsValuePositive(es);
    ShownWhenPositive(f, es);
  }

  lemma {:induction false} NoPointInDigits(s: string)
    requires AllDecimalDigits(s)
    ensures '.' !in s
  {
  }

  lemma {:induction false} ShownWhenPositive(f: Format, ds: string)
    requires f.decimalPlaces > 0 && ParseInt(ds, true).Some? && ParseInt(ds, true).value > 0
    ensures ShowsDecimals(f, Some(ds))
  {
  }

  lemma {:induction false} FormattedWithDecimals(f: Format, whole: string, decimals: string)
    requires f.groupSize >= 1 && '.' !in whole && '.' !in decimals && ShowsDecimals(f, Some(decimals))
    ensures Formatted(f, false, whole + "." + decimals, false)
      == Join(Groups(whole, f.groupSize), f.groupSeparator) + f.decimalSeparator + decimals
  {
    PartsOfFixed(whole, decimals);
    FractionShown(f, decimals);
    FormattedPlain(f, whole + "." + decimals);
  }

  /** Without sign and symbol an amount is its grouped digits and its fraction. */
  lemma {:induction false} FormattedPlain(f: Format, fixed: string)
    requires f.groupSize >= 1
    ensures Formatted(f, false, fixed, false)
      == Join(Groups(WholeOf(fixed), f.groupSize), f.groupSeparator) + Fraction(f, DecimalsOf(fixed))
  {
  }

  lemma {:induction false} FractionShown(f: Format, decimals: string)
    requires ShowsDecimals(f, Some(decimals))
    ensures Fraction(f, Some(decimals)) == f.decimalSeparator + decimals
  {
  }

  /** Without decimal places the placeholder is the grouped rendering of 1 and the digits 2 … g+1. */
  lemma {:induction false} PlaceholderIsStringifiedWhole(f: Format)
    requires 1 <= f.groupSize <= 8 && f.decimalPlaces == 0
    ensures PlaceholderText(f) == Formatted(f, false, "1" + Counting(2, f.groupSize), false)
  {
    var s := "1" + Counting(2, f.groupSize);
    LeadingOneGrouped(f);
    SplitPlain(s, '.');
    FormattedPlain(f, s);
    assert WholeOf(s) == s && DecimalsOf(s) == None;
    assert Fraction(f, None) == "";
  }

  lemma {:induction false} LeadingOneGrouped(f: Format)
    requires 1 <= f.groupSize <= 8
    ensures '.' !in "1" + Counting(2, f.groupSize)
    ensures Join(Groups("1" + Counting(2, f.groupSize), f.groupSize), f.groupSeparator)
      == "1" + f.groupSeparator + Counting(2, f.groupSize)
  {
    var ds := Counting(2, f.groupSize);
    CountingDigits(2, f.groupSize);
    var s := "1" + ds;
    assert forall k :: 0 <= k < |s| ==> IsDecimalDigit(s[k]);
    assert s[..|s| - f.groupSize] == "1";
    assert s[|s| - f.groupSize..] == ds;
    assert Groups(s, f.groupSize) == ["1", ds];
  }
}
