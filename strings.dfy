/**
 * String helpers of js/core.js: `HTML.escape`, `HTMLParser.clearSpecialSymbols`,
 * `StringUtils.escapeRegExp` and `StringUtils.hashCode` (Java's String.hashCode
 * over UTF-16 code units, in signed 32-bit arithmetic).
 */
module StringUtils {
  import opened JsRuntime

  // ---------------------------------------------------------------------------
  // HTML.escape

  predicate IsHtmlSpecial(c: char) {
    c == '&' || c == '<' || c == '>' || c == '"' || c == '\''
  }

  /** The replacement `HTML.escape` uses for one character. */
  function EscapeHtmlChar(c: char): (r: string)
    ensures !IsHtmlSpecial(c) ==> r == [c]
    ensures IsHtmlSpecial(c) ==> |r| >= 4 && r[0] == '&' && r[|r| - 1] == ';'
  {
    match c
    case '&' => "&amp;"
    case '<' => "&lt;"
    case '>' => "&gt;"
    case '"' => "&quot;"
    case '\'' => "&#039;"
    case _ => [c]
  }

  /** `HTML.escape`: every special character replaced by its entity. */
  function EscapeHtml(s: string): (r: string)
    ensures |r| >= |s|
    ensures forall i :: 0 <= i < |r| ==> r[i] != '<' && r[i] != '>' && r[i] != '"' && r[i] != '\''
    ensures (forall i :: 0 <= i < |s| ==> !IsHtmlSpecial(s[i])) ==> r == s
  {
    if s == [] then [] else EscapeHtmlChar(s[0]) + EscapeHtml(s[1..])
  }

  /** How a browser reads back the five entities `HTML.escape` writes. */
  function DecodeEntities(s: string): string {
    if s == [] then []
    else if "&amp;" <= s then "&" + DecodeEntities(s[5..])
    else if "&lt;" <= s then "<" + DecodeEntities(s[4..])
    else if "&gt;" <= s then ">" + DecodeEntities(s[4..])
    else if "&quot;" <= s then "\"" + DecodeEntities(s[6..])
    else if "&#039;" <= s then "'" + DecodeEntities(s[6..])
    else [s[0]] + DecodeEntities(s[1..])
  }

  lemma {:induction false} DecodeEscapedChar(c: char, rest: string)
    ensures DecodeEntities(EscapeHtmlChar(c) + rest) == [c] + DecodeEntities(rest)
  {
    var e := EscapeHtmlChar(c);
    var t := e + rest;
    assert t[|e|..] == rest;
    assert e <= t;
    if !IsHtmlSpecial(c) {
      assert t[0] == c && t[0] != '&';
      assert !("&amp;" <= t) && !("&lt;" <= t) && !("&gt;" <= t);
      assert !("&quot;" <= t) && !("&#039;" <= t);
    } else if c == '<' {
      assert t[1] == 'l' && !("&amp;" <= t);
    } else if c == '>' {
      assert t[1] == 'g' && !("&amp;" <= t) && !("&lt;" <= t);
    } else if c == '"' {
      assert t[1] == 'q' && !("&amp;" <= t) && !("&lt;" <= t) && !("&gt;" <= t);
    } else if c == '\'' {
      assert t[1] == '#' && !("&amp;" <= t) && !("&lt;" <= t) && !("&gt;" <= t) && !("&quot;" <= t);
    }
  }

  /** Escaping loses nothing: decoding the entities gives the input back. */
  lemma {:induction false} EscapeHtmlRoundTrip(s: string)
    ensures DecodeEntities(EscapeHtml(s)) == s
  {
    if s != [] {
      DecodeEscapedChar(s[0], EscapeHtml(s[1..]));
      EscapeHtmlRoundTrip(s[1..]);
      assert [s[0]] + s[1..] == s;
    }
  }

  // ---------------------------------------------------------------------------
  // HTMLParser.clearSpecialSymbols

  /** ®, © and ™, the symbols `clearSpecialSymbols` removes. */
  predicate IsSpecialSymbol(c: char) {
    c == '\U{00AE}' || c == '\U{00A9}' || c == '\U{2122}'
  }

  /** `HTMLParser.clearSpecialSymbols`: the input without ®, © and ™. */
  function ClearSpecialSymbols(s: string): (r: string)
    ensures forall i :: 0 <= i < |r| ==> !IsSpecialSymbol(r[i])
    ensures |r| <= |s|
  {
    if s == [] then []
    else
      var rest := ClearSpecialSymbols(s[1..]);
      if IsSpecialSymbol(s[0]) then rest else [s[0]] + rest
  }

  /** Every other character is kept as often as it occurs. */
  lemma {:induction false} ClearSpecialSymbolsKeepsOthers(s: string, c: char)
    requires !IsSpecialSymbol(c)
    ensures multiset(ClearSpecialSymbols(s))[c] == multiset(s)[c]
  {
    if s != [] {
      ClearSpecialSymbolsKeepsOthers(s[1..], c);
      assert s == [s[0]] + s[1..];
    }
  }

  /** Removal works piecewise, so it keeps the order of what it keeps. */
  lemma {:induction false} ClearSpecialSymbolsAppend(a: string, b: string)
    ensures ClearSpecialSymbols(a + b) == ClearSpecialSymbols(a) + ClearSpecialSymbols(b)
  {
    if a != [] {
      assert (a + b)[0] == a[0];
      assert (a + b)[1..] == a[1..] + b;
      ClearSpecialSymbolsAppend(a[1..], b);
      var head := if IsSpecialSymbol(a[0]) then [] else [a[0]];
      assert ClearSpecialSymbols(a) == head + ClearSpecialSymbols(a[1..]);
      assert ClearSpecialSymbols(a + b) == head + ClearSpecialSymbols(a[1..] + b);
    } else {
      assert a + b == b;
    }
  }

  lemma {:induction false} ClearSpecialSymbolsIdempotent(s: string)
    ensures ClearSpecialSymbols(ClearSpecialSymbols(s)) == ClearSpecialSymbols(s)
  {
    if s != [] {
      ClearSpecialSymbolsIdempotent(s[1..]);
      var rest := ClearSpecialSymbols(s[1..]);
      if !IsSpecialSymbol(s[0]) {
        assert ([s[0]] + rest)[1..] == rest;
      }
    }
  }

  // ---------------------------------------------------------------------------
  // StringUtils.escapeRegExp

  /** The characters of the class `[.*+?^${}()|[\]\\]`. */
  predicate IsRegExpMeta(c: char) {
    c == '.' || c == '*' || c == '+' || c == '?' || c == '^' || c == '$' || c == '{' || c == '}'
    || c == '(' || c == ')' || c == '|' || c == '[' || c == ']' || c == '\\'
  }

  /** `StringUtils.escapeRegExp`: a backslash before every metacharacter. */
  function EscapeRegExp(s: string): (r: string)
    ensures |r| >= |s|
    ensures (forall i :: 0 <= i < |s| ==> !IsRegExpMeta(s[i])) ==> r == s
  {
    if s == [] then []
    else if IsRegExpMeta(s[0]) then ['\\', s[0]] + EscapeRegExp(s[1..])
    else [s[0]] + EscapeRegExp(s[1..])
  }

  /**
   * A pattern in which every metacharacter stands escaped: read left to right,
   * a backslash always takes the next character with it, and no other
   * metacharacter occurs.
   */
  predicate AllMetaEscaped(r: string)
    decreases |r|
  {
    if r == [] then true
    else if r[0] == '\\' then |r| >= 2 && AllMetaEscaped(r[2..])
    else !IsRegExpMeta(r[0]) && AllMetaEscaped(r[1..])
  }

  /** What a regular expression reads an escaped pattern as: the literal text. */
  function RegExpLiteral(r: string): string
    decreases |r|
  {
    if r == [] then []
    else if r[0] == '\\' && |r| >= 2 then [r[1]] + RegExpLiteral(r[2..])
    else [r[0]] + RegExpLiteral(r[1..])
  }

  /** The escaped text is a pattern with no live metacharacter that stands for the input. */
  lemma {:induction false} EscapeRegExpIsLiteral(s: string)
    ensures AllMetaEscaped(EscapeRegExp(s))
    ensures RegExpLiteral(EscapeRegExp(s)) == s
  {
    if s != [] {
      EscapeRegExpIsLiteral(s[1..]);
      var rest := EscapeRegExp(s[1..]);
      var r := EscapeRegExp(s);
      if IsRegExpMeta(s[0]) {
        assert r[2..] == rest;
      } else {
        assert r[1..] == rest;
      }
      assert [s[0]] + s[1..] == s;
    }
  }

  // ---------------------------------------------------------------------------
  // StringUtils.hashCode

  /** The hash over unbounded integers: h := 31 * h + unit, from the left. */
  function PolyHash(u: seq<int>): int {
    if u == [] then 0 else 31 * PolyHash(u[..|u| - 1]) + u[|u| - 1]
  }

  function Pow31(e: nat): nat {
    if e == 0 then 1 else 31 * Pow31(e - 1)
  }

  /** The closed form: the sum of u[i] * 31^(n-1-i). */
  function WeightedSum(u: seq<int>): int {
    if u == [] then 0 else u[0] * Pow31(|u| - 1) + WeightedSum(u[1..])
  }

  lemma {:induction false} PolyHashFront(u: seq<int>)
    requires |u| >= 1
    ensures PolyHash(u) == u[0] * Pow31(|u| - 1) + PolyHash(u[1..])
    decreases |u|
  {
    var n := |u|;
    if n == 1 {
      assert u[..0] == [];
      assert u[1..] == [];
    } else {
      var init := u[..n - 1];
      PolyHashFront(init);
      assert init[1..] == u[1..][..n - 2];
      assert u[1..][n - 2] == u[n - 1];
      calc {
        PolyHash(u);
        31 * PolyHash(init) + u[n - 1];
        31 * (u[0] * Pow31(n - 2) + PolyHash(init[1..])) + u[n - 1];
        u[0] * (31 * Pow31(n - 2)) + (31 * PolyHash(u[1..][..n - 2]) + u[1..][n - 2]);
        u[0] * Pow31(n - 1) + PolyHash(u[1..]);
      }
    }
  }

  /** The left-to-right recurrence computes the weighted sum. */
  lemma {:induction false} PolyHashIsWeightedSum(u: seq<int>)
    ensures PolyHash(u) == WeightedSum(u)
    decreases |u|
  {
    if u != [] {
      PolyHashFront(u);
      PolyHashIsWeightedSum(u[1..]);
    }
  }

  /** Java's String.hashCode of the code units: the weighted sum read as a signed 32-bit int. */
  function JavaHash(u: seq<int>): int {
    ToInt32(WeightedSum(u))
  }

  lemma {:induction false} MultipleOfTwoTo32(k: int)
    ensures (k * TwoTo32) % TwoTo32 == 0
  {
  }

  /** One round of `hash = ((hash << 5) - hash) + char; hash = hash & hash`. */
  lemma {:induction false} HashStep(h: int, p: int, c: int)
    requires h == ToInt32(p)
    ensures ToInt32(ToInt32(h * 32) - h + c) == ToInt32(31 * p + c)
  {
    var k1 := (h * 32 - ToInt32(h * 32)) / TwoTo32;
    assert h * 32 - ToInt32(h * 32) == k1 * TwoTo32;
    var k2 := (p - h) / TwoTo32;
    assert p - h == k2 * TwoTo32;
    var x := ToInt32(h * 32) - h + c;
    var y := 31 * p + c;
    assert x - y == -(k1 + 31 * k2) * TwoTo32;
    MultipleOfTwoTo32(-(k1 + 31 * k2));
    ToInt32Congruent(x, y);
  }

  /** `StringUtils.hashCode`, one code unit per round as the source's loop runs. */
  method HashCode(s: string) returns (hash: int)
    ensures hash == JavaHash(CodeUnits(s))
    ensures -TwoTo31 <= hash < TwoTo31
    ensures s == [] ==> hash == 0
  {
    var units := CodeUnits(s);
    PolyHashIsWeightedSum(units);
    hash := 0;
    if |units| == 0 {
      return;
    }
    for i := 0 to |units|
      invariant hash == ToInt32(PolyHash(units[..i]))
    {
      var c := units[i];
      assert units[..i + 1][..i] == units[..i];
      HashStep(hash, PolyHash(units[..i]), c);
      var shifted := ToInt32(hash * 32);   // hash << 5
      hash := ToInt32(shifted - hash + c); // then `hash & hash` truncates to 32 bits
    }
    assert units[..|units|] == units;
  }
}
