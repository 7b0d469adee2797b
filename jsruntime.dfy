/**
 * The JavaScript built-ins the core relies on, stated exactly enough for the
 * rest of the model: `parseInt`, `Number` on decimal strings, `String#trim`,
 * `String#split` with a one-character separator, `Array#join`, number-to-string
 * conversion of integers, the `ToInt32` conversion of the bitwise operators,
 * and the UTF-16 code units behind `charCodeAt`.
 */
module JsRuntime {
  import opened Wrappers

  // ---------------------------------------------------------------------------
  // Characters

  /** WhiteSpace and LineTerminator code points, as `trim` and `parseInt` skip them. */
  predicate IsWhitespace(c: char) {
    c == '\t' || c == '\n' || c == '\U{000B}' || c == '\U{000C}' || c == '\r' || c == ' '
    || c == '\U{00A0}' || c == '\U{1680}' || ('\U{2000}' <= c <= '\U{200A}')
    || c == '\U{2028}' || c == '\U{2029}' || c == '\U{202F}' || c == '\U{205F}'
    || c == '\U{3000}' || c == '\U{FEFF}'
  }

  /** The characters a regular-expression `.` does not match. */
  predicate IsLineTerminator(c: char) {
    c == '\n' || c == '\r' || c == '\U{2028}' || c == '\U{2029}'
  }

  predicate IsDecimalDigit(c: char) {
    '0' <= c <= '9'
  }

  /** A digit of the given radix (only 10 and 16 occur in the core). */
  predicate IsDigitIn(c: char, radix: nat) {
    if radix == 16 then IsDecimalDigit(c) || ('a' <= c <= 'f') || ('A' <= c <= 'F')
    else IsDecimalDigit(c)
  }

  function DigitValue(c: char): (d: nat)
    ensures IsDecimalDigit(c) ==> d < 10
    ensures d < 16
  {
    if IsDecimalDigit(c) then c as nat - '0' as nat
    else if 'a' <= c <= 'f' then c as nat - 'a' as nat + 10
    else if 'A' <= c <= 'F' then c as nat - 'A' as nat + 10
    else 0
  }

  function DigitChar(d: nat): (c: char)
    requires d < 10
    ensures IsDecimalDigit(c) && DigitValue(c) == d
  {
    ('0' as int + d) as char
  }

  predicate AllDecimalDigits(s: string) {
    forall i :: 0 <= i < |s| ==> IsDecimalDigit(s[i])
  }

  // ---------------------------------------------------------------------------
  // String#trim

  function TrimStart(s: string): (r: string)
    ensures |r| <= |s| && s[|s| - |r|..] == r
    ensures r != [] ==> !IsWhitespace(r[0])
    ensures forall i :: 0 <= i < |s| - |r| ==> IsWhitespace(s[i])
  {
    if s != [] && IsWhitespace(s[0]) then TrimStart(s[1..]) else s
  }

  function TrimEnd(s: string): (r: string)
    ensures |r| <= |s| && s[..|r|] == r
    ensures r != [] ==> !IsWhitespace(r[|r| - 1])
    ensures forall i :: |r| <= i < |s| ==> IsWhitespace(s[i])
  {
    if s != [] && IsWhitespace(s[|s| - 1]) then TrimEnd(s[..|s| - 1]) else s
  }

  /** Everything of `s` before position `a` and from position `b` on is white space. */
  predicate WsOutside(s: string, a: int, b: int) {
    0 <= a <= b <= |s|
    && (forall i :: 0 <= i < a ==> IsWhitespace(s[i]))
    && (forall i :: b <= i < |s| ==> IsWhitespace(s[i]))
  }

  /** `r` is a slice of `s` with only white space around it. */
  ghost predicate TrimmedFrom(s: string, r: string) {
    exists a, b :: WsOutside(s, a, b) && r == s[a..b]
  }

  /** `String#trim`: the input without leading and trailing white space. */
  function Trim(s: string): (r: string)
    ensures |r| <= |s|
    ensures r != [] ==> !IsWhitespace(r[0]) && !IsWhitespace(r[|r| - 1])
    ensures (s == [] || (!IsWhitespace(s[0]) && !IsWhitespace(s[|s| - 1]))) ==> r == s
  {
    TrimEnd(TrimStart(s))
  }

  /** `trim` removes white space at the two ends and nothing else: the result is a slice of the input with only white space around it. */
  lemma {:induction false} TrimRemovesOnlyOuterWhitespace(s: string)
    ensures TrimmedFrom(s, Trim(s))
  {
    var t := TrimStart(s);
    var r := TrimEnd(t);
    var a := |s| - |t|;
    SliceOfSlice(s, t, r, a);
    assert WsOutside(s, a, a + |r|);
  }

  lemma {:induction false} SliceOfSlice(s: string, t: string, r: string, a: nat)
    requires a + |t| == |s| && s[a..] == t
    requires |r| <= |t| && t[..|r|] == r
    requires forall i :: |r| <= i < |t| ==> IsWhitespace(t[i])
    ensures r == s[a..a + |r|]
    ensures forall i :: a + |r| <= i < |s| ==> IsWhitespace(s[i])
  {
    forall i | a + |r| <= i < |s| ensures IsWhitespace(s[i]) {
      assert s[i] == t[i - a];
    }
  }

  lemma {:induction false} TrimIdempotent(s: string)
    ensures Trim(Trim(s)) == Trim(s)
  {
    var r := Trim(s);
    if r != [] {
      assert !IsWhitespace(r[0]) && !IsWhitespace(r[|r| - 1]);
    }
  }

  // ---------------------------------------------------------------------------
  // Integers as decimal strings

  /** The decimal digits of a natural number, most significant first. */
  function NatToString(n: nat): (s: string)
    ensures s != [] && AllDecimalDigits(s)
    ensures |s| > 1 ==> s[0] != '0'
    decreases n
  {
    if n < 10 then [DigitChar(n)] else NatToString(n / 10) + [DigitChar(n % 10)]
  }

  /** How a JavaScript template literal or `String(n)` writes an integer. */
  function IntToString(n: int): (s: string)
    ensures s != []
    ensures n >= 0 ==> AllDecimalDigits(s)
    ensures n < 0 ==> s[0] == '-' && AllDecimalDigits(s[1..])
    ensures '.' !in s && '/' !in s
  {
    if n < 0 then "-" + NatToString(-n) else NatToString(n)
  }

  /** The value of a digit string in the given radix. */
  function DigitsValue(ds: string, radix: nat): nat {
    if ds == [] then 0 else DigitsValue(ds[..|ds| - 1], radix) * radix + DigitValue(ds[|ds| - 1])
  }

  lemma {:induction false} NatToStringValue(n: nat)
    ensures DigitsValue(NatToString(n), 10) == n
    decreases n
  {
    if n >= 10 {
      var s := NatToString(n);
      assert s[..|s| - 1] == NatToString(n / 10);
      NatToStringValue(n / 10);
    }
  }

  /** The longest prefix made of digits of the radix. */
  function LeadingDigits(s: string, radix: nat): (ds: string)
    ensures ds <= s
    ensures forall i :: 0 <= i < |ds| ==> IsDigitIn(ds[i], radix)
    ensures |ds| < |s| ==> !IsDigitIn(s[|ds|], radix)
  {
    if s == [] || !IsDigitIn(s[0], radix) then [] else [s[0]] + LeadingDigits(s[1..], radix)
  }

  /** A digit string with a nonzero first digit has a positive value. */
  lemma {:induction false} DigitsValuePositive(ds: string)
    requires ds != [] && AllDecimalDigits(ds) && ds[0] != '0'
    ensures DigitsValue(ds, 10) > 0
    decreases |ds|
  {
    if |ds| > 1 {
      DigitsValuePositive(ds[..|ds| - 1]);
    } else {
      assert DigitValue(ds[0]) > 0;
    }
  }

  lemma {:induction false} LeadingDigitsOfDigits(ds: string, rest: string)
    requires AllDecimalDigits(ds)
    requires rest == [] || !IsDecimalDigit(rest[0])
    ensures LeadingDigits(ds + rest, 10) == ds
  {
    if ds != [] {
      assert (ds + rest)[1..] == ds[1..] + rest;
      LeadingDigitsOfDigits(ds[1..], rest);
    } else {
      assert ds + rest == rest;
    }
  }

  // ---------------------------------------------------------------------------
  // parseInt and Number

  /** The sign and the rest of a string after `parseInt` skipped leading white space. */
  function SignedBody(t: string): (sb: (bool, string))
    ensures |sb.1| <= |t|
  {
    if t != [] && t[0] == '-' then (true, t[1..])
    else if t != [] && t[0] == '+' then (false, t[1..])
    else (false, t)
  }

  predicate HasHexPrefix(body: string) {
    |body| >= 2 && body[0] == '0' && (body[1] == 'x' || body[1] == 'X')
  }

  /**
   * `parseInt(s, radix)` where `explicitTen` says whether the radix 10 was
   * passed (then a `0x` prefix is not special) or left out (then `0x`/`0X`
   * selects hexadecimal). `None` is NaN: no digit follows the sign and prefix.
   */
  function ParseInt(s: string, explicitTen: bool): (r: Option<int>)
  {
    var sb := SignedBody(TrimStart(s));
    ParseSigned(sb.0, sb.1, explicitTen)
  }

  /** The digits after the sign: hexadecimal after `0x` when the radix was left out, else decimal. */
  function ParseSigned(negative: bool, body: string, explicitTen: bool): Option<int> {
    if !explicitTen && HasHexPrefix(body) then SignedValue(negative, LeadingDigits(body[2..], 16), 16)
    else SignedValue(negative, LeadingDigits(body, 10), 10)
  }

  /** The value of the digits read, negated after a minus sign; NaN when there are none. */
  function SignedValue(negative: bool, ds: string, radix: nat): Option<int> {
    if ds == [] then None
    else if negative then Some(-(DigitsValue(ds, radix) as int))
    else Some(DigitsValue(ds, radix))
  }

  lemma {:induction false} TrimStartNoLeadingSpace(s: string)
    requires s != [] && !IsWhitespace(s[0])
    ensures TrimStart(s) == s
  {
  }

  lemma {:induction false} ParseIntOfDigits(ds: string, explicitTen: bool)
    requires ds != [] && AllDecimalDigits(ds)
    requires |ds| > 1 ==> ds[0] != '0'
    ensures ParseInt(ds, explicitTen) == Some(DigitsValue(ds, 10))
    ensures ParseInt("-" + ds, explicitTen) == Some(-(DigitsValue(ds, 10) as int))
  {
    assert ds + [] == ds;
    LeadingDigitsOfDigits(ds, []);
    ParseIntOfBody(ds, explicitTen);
    ParseIntOfNegativeBody(ds, explicitTen);
  }

  lemma {:induction false} ParseIntOfBody(ds: string, explicitTen: bool)
    requires ds != [] && AllDecimalDigits(ds) && LeadingDigits(ds, 10) == ds
    requires |ds| > 1 ==> ds[0] != '0'
    ensures ParseInt(ds, explicitTen) == Some(DigitsValue(ds, 10))
  {
    TrimStartNoLeadingSpace(ds);
    assert SignedBody(ds) == (false, ds);
    ParseUnsignedDigits(ds, explicitTen);
  }

  lemma {:induction false} ParseIntOfNegativeBody(ds: string, explicitTen: bool)
    requires ds != [] && AllDecimalDigits(ds) && LeadingDigits(ds, 10) == ds
    requires |ds| > 1 ==> ds[0] != '0'
    ensures ParseInt("-" + ds, explicitTen) == Some(-(DigitsValue(ds, 10) as int))
  {
    var t := "-" + ds;
    TrimStartNoLeadingSpace(t);
    NegativeSignedBody(ds);
    ParseNegatedDigits(ds, explicitTen);
  }

  lemma {:induction false} NegativeSignedBody(ds: string)
    ensures SignedBody("-" + ds) == (true, ds)
  {
    var t := "-" + ds;
    assert t[1..] == ds;
  }

  lemma {:induction false} ParseUnsignedDigits(ds: string, explicitTen: bool)
    requires ds != [] && AllDecimalDigits(ds) && LeadingDigits(ds, 10) == ds
    requires |ds| > 1 ==> ds[0] != '0'
    ensures ParseSigned(false, ds, explicitTen) == Some(DigitsValue(ds, 10))
  {
    ParseDecimal(false, ds, explicitTen);
  }

  lemma {:induction false} ParseNegatedDigits(ds: string, explicitTen: bool)
    requires ds != [] && AllDecimalDigits(ds) && LeadingDigits(ds, 10) == ds
    requires |ds| > 1 ==> ds[0] != '0'
    ensures ParseSigned(true, ds, explicitTen) == Some(-(DigitsValue(ds, 10) as int))
  {
    ParseDecimal(true, ds, explicitTen);
    NegatedValue(ds);
  }

  /** Without a `0x` prefix the digits are read in radix 10 whether or not it was passed. */
  lemma {:induction false} ParseDecimal(negative: bool, ds: string, explicitTen: bool)
    requires LeadingDigits(ds, 10) == ds
    requires |ds| > 1 ==> ds[0] != '0'
    ensures ParseSigned(negative, ds, explicitTen) == SignedValue(negative, ds, 10)
  {
    assert !HasHexPrefix(ds);
  }

  lemma {:induction false} NegatedValue(ds: string)
    requires ds != []
    ensures SignedValue(true, ds, 10) == Some(-(DigitsValue(ds, 10) as int))
  {
  }

  /** Parsing what `IntToString` wrote gives the integer back, in either radix mode. */
  lemma {:induction false} ParseIntToString(n: int, explicitTen: bool)
    ensures ParseInt(IntToString(n), explicitTen) == Some(n)
  {
    var m := if n < 0 then -n else n;
    ParseIntOfDigits(NatToString(m), explicitTen);
    NatToStringValue(m);
  }

  /**
   * `Number(s)` on the strings the core hands it: surrounding white space is
   * ignored, the empty string is 0, and an optionally signed run of decimal
   * digits is its integer. `None` stands for every other string (NaN, or the
   * fractions, exponents, hexadecimal and Infinity forms the model leaves out).
   */
  function NumberOfString(s: string): (r: Option<int>)
    ensures r.Some? && Trim(s) != [] && IsDecimalDigit(Trim(s)[0]) ==> r.value >= 0
  {
    var t := Trim(s);
    if t == [] then Some(0)
    else
      var negative := t[0] == '-';
      var body := if t[0] == '-' || t[0] == '+' then t[1..] else t;
      if body == [] || !AllDecimalDigits(body) then None
      else if negative then Some(-(DigitsValue(body, 10) as int))
      else Some(DigitsValue(body, 10))
  }

  lemma {:induction false} NumberOfDigits(ds: string)
    requires ds != [] && AllDecimalDigits(ds)
    ensures NumberOfString(ds) == Some(DigitsValue(ds, 10))
  {
    DigitNotWhitespace(ds[0]);
    DigitNotWhitespace(ds[|ds| - 1]);
    assert Trim(ds) == ds;
  }

  lemma {:induction false} NumberOfNegativeDigits(ds: string)
    requires ds != [] && AllDecimalDigits(ds)
    ensures NumberOfString("-" + ds) == Some(-(DigitsValue(ds, 10) as int))
  {
    var t := "-" + ds;
    assert t[1..] == ds && t[|t| - 1] == ds[|ds| - 1];
    DigitNotWhitespace(ds[|ds| - 1]);
    assert Trim(t) == t;
  }

  lemma {:induction false} DigitNotWhitespace(c: char)
    requires IsDecimalDigit(c)
    ensures !IsWhitespace(c)
  {
  }

  lemma {:induction false} NumberOfIntToString(n: int)
    ensures NumberOfString(IntToString(n)) == Some(n)
  {
    var m := if n < 0 then -n else n;
    NumberOfDigits(NatToString(m));
    NumberOfNegativeDigits(NatToString(m));
    NatToStringValue(m);
  }

  // ---------------------------------------------------------------------------
  // String#split, Array#join, String#indexOf

  /** `s.split(c)` for a one-character separator: the fields between separators. */
  function Split(s: string, c: char): (parts: seq<string>)
    ensures |parts| >= 1
    ensures forall i :: 0 <= i < |parts| ==> c !in parts[i]
  {
    if s == [] then [""]
    else
      var rest := Split(s[1..], c);
      if s[0] == c then [""] + rest
      else [[s[0]] + rest[0]] + rest[1..]
  }

  /** `parts.join(sep)`. */
  function Join(parts: seq<string>, sep: string): string {
    if |parts| == 0 then ""
    else if |parts| == 1 then parts[0]
    else parts[0] + sep + Join(parts[1..], sep)
  }

  lemma {:induction false} JoinConsHead(a: string, b: string, rest: seq<string>, sep: string)
    ensures Join([a + b] + rest, sep) == a + Join([b] + rest, sep)
  {
    if |rest| > 0 {
      assert ([a + b] + rest)[1..] == rest;
      assert ([b] + rest)[1..] == rest;
    }
  }

  /** Joining the fields with the separator gives the string back. */
  lemma {:induction false} SplitJoin(s: string, c: char)
    ensures Join(Split(s, c), [c]) == s
  {
    if s != [] {
      var rest := Split(s[1..], c);
      SplitJoin(s[1..], c);
      if s[0] == c {
        assert ([""] + rest)[1..] == rest;
      } else {
        JoinConsHead([s[0]], rest[0], rest[1..], [c]);
        assert [rest[0]] + rest[1..] == rest;
        assert s == [s[0]] + s[1..];
      }
    }
  }

  lemma {:induction false} SplitPlain(a: string, c: char)
    requires c !in a
    ensures Split(a, c) == [a]
  {
    if a != [] {
      SplitPlain(a[1..], c);
      assert [a[0]] + a[1..] == a;
    }
  }

  /** `v` is the text of `s` up to its first `c`, or all of `s` when there is none. */
  predicate UpToFirst(s: string, c: char, v: string) {
    |v| <= |s| && s[..|v|] == v && c !in v && (|v| == |s| || s[|v|] == c)
  }

  /** The first field of a split runs up to the first separator. */
  lemma {:induction false} SplitHead(s: string, c: char)
    ensures UpToFirst(s, c, Split(s, c)[0])
  {
    if c !in s {
      SplitPlain(s, c);
    } else {
      SplitAtFirst(s, c);
    }
  }

  /** A split cuts at the first separator and goes on with the rest. */
  lemma {:induction false} SplitAtFirst(s: string, c: char)
    requires c in s
    ensures var k := IndexOf(s, c); Split(s, c) == [s[..k]] + Split(s[k + 1..], c)
  {
    var k := IndexOf(s, c);
    assert s == s[..k] + [c] + s[k + 1..];
    SplitAfterField(s[..k], c, s[k + 1..]);
  }

  lemma {:induction false} SplitAfterField(a: string, c: char, rest: string)
    requires c !in a
    ensures Split(a + [c] + rest, c) == [a] + Split(rest, c)
  {
    var s := a + [c] + rest;
    if a == [] {
      assert s == [c] + rest;
      assert s[1..] == rest;
    } else {
      assert s[1..] == a[1..] + [c] + rest;
      SplitAfterField(a[1..], c, rest);
      assert [a[0]] + a[1..] == a;
    }
  }

  /** Splitting a join of separator-free fields gives the fields back. */
  lemma {:induction false} SplitOfJoin(parts: seq<string>, c: char)
    requires |parts| >= 1
    requires forall i :: 0 <= i < |parts| ==> c !in parts[i]
    ensures Split(Join(parts, [c]), c) == parts
  {
    if |parts| == 1 {
      SplitPlain(parts[0], c);
    } else {
      SplitOfJoin(parts[1..], c);
      SplitAfterField(parts[0], c, Join(parts[1..], [c]));
      assert [parts[0]] + parts[1..] == parts;
    }
  }

  /** `s.indexOf(c)`: the first position of `c`, or -1. */
  function IndexOf(s: string, c: char): (i: int)
    ensures -1 <= i < |s|
    ensures i == -1 <==> c !in s
    ensures i >= 0 ==> s[i] == c && c !in s[..i]
  {
    if s == [] then -1
    else if s[0] == c then 0
    else
      var j := IndexOf(s[1..], c);
      assert s[1..][..if j < 0 then 0 else j] == s[1..1 + (if j < 0 then 0 else j)];
      if j == -1 then -1 else j + 1
  }

  // ---------------------------------------------------------------------------
  // Numbers under the bitwise operators

  const TwoTo31: int := 0x8000_0000
  const TwoTo32: int := 0x1_0000_0000

  /** ECMAScript ToInt32: reduce modulo 2^32 into the signed 32-bit range. */
  function ToInt32(x: int): (r: int)
    ensures -TwoTo31 <= r < TwoTo31
    ensures (x - r) % TwoTo32 == 0
  {
    (x + TwoTo31) % TwoTo32 - TwoTo31
  }

  /** ToInt32 depends only on the residue modulo 2^32. */
  lemma {:induction false} ToInt32Congruent(x: int, y: int)
    requires (x - y) % TwoTo32 == 0
    ensures ToInt32(x) == ToInt32(y)
  {
    var k := (x - y) / TwoTo32;
    assert x == y + k * TwoTo32;
    assert (y + TwoTo31 + k * TwoTo32) % TwoTo32 == (y + TwoTo31) % TwoTo32;
  }

  // ---------------------------------------------------------------------------
  // UTF-16

  /**
   * The UTF-16 encoding of one character: the code point itself below
   * 0x10000, otherwise a high and a low surrogate that decode back to it.
   */
  function UnitsOfChar(c: char): (u: seq<int>)
    ensures c as int < 0x1_0000 ==> u == [c as int]
    ensures c as int >= 0x1_0000 ==>
      |u| == 2 && 0xD800 <= u[0] < 0xDC00 && 0xDC00 <= u[1] < 0xE000
      && (u[0] - 0xD800) * 0x400 + (u[1] - 0xDC00) + 0x1_0000 == c as int
  {
    var cp := c as int;
    if cp < 0x1_0000 then [cp]
    else [0xD800 + (cp - 0x1_0000) / 0x400, 0xDC00 + (cp - 0x1_0000) % 0x400]
  }

  /** The UTF-16 code units of a string, as `charCodeAt` reads them. */
  function CodeUnits(s: string): (u: seq<int>)
    ensures |u| >= |s|
    ensures forall i :: 0 <= i < |u| ==> 0 <= u[i] < 0x1_0000
  {
    if s == [] then []
    else UnitsOfChar(s[0]) + CodeUnits(s[1..])
  }

  /** A one-character string is encoded as that character. */
  lemma {:induction false} CodeUnitsOfChar(c: char)
    ensures CodeUnits([c]) == UnitsOfChar(c)
  {
    assert [c][1..] == [];
  }

  /** The encoding works character by character: it distributes over concatenation. */
  lemma {:induction false} CodeUnitsAppend(a: string, b: string)
    ensures CodeUnits(a + b) == CodeUnits(a) + CodeUnits(b)
    decreases |a|
  {
    if a == [] {
      assert a + b == b;
    } else {
      assert (a + b)[0] == a[0];
      assert (a + b)[1..] == a[1..] + b;
      CodeUnitsAppend(a[1..], b);
    }
  }

  /** Without characters beyond 0x10000, each character is one unit holding its code point. */
  lemma {:induction false} CodeUnitsBmp(s: string)
    requires forall i :: 0 <= i < |s| ==> s[i] as int < 0x1_0000
    ensures CodeUnits(s) == seq(|s|, i requires 0 <= i < |s| => s[i] as int)
    decreases |s|
  {
    if s != [] {
      CodeUnitsBmp(s[1..]);
    }
  }
}
