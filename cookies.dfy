/**
 * `CookieStorage` of js/content/common.js: a cache of the page's cookies,
 * filled from `document.cookie` the first time it is found empty.
 *
 * `document.cookie` is read at each call, so its text is a parameter of the
 * calls that may fill the cache. `decodeURIComponent` is a parameter of the
 * storage object; it may throw (URIError), which the model writes as `Err`.
 * The writes to `document.cookie` (with `encodeURIComponent`) are output
 * only and are not part of the model.
 */
module Cookies {
  import opened Wrappers
  import opened JsRuntime

  /** One field of `document.cookie.split(';')`: its trimmed name and the undecoded value. */
  datatype Entry = Entry(key: string, raw: string)

  /**
   * `kv.split('=')` read as `[key, val]`: the value ends at the next `=`, and
   * a field without `=` has the value `undefined`, which
   * `decodeURIComponent` turns into the text "undefined".
   */
  function EntryOf(kv: string): (e: Entry)
    ensures '=' !in kv ==> e == Entry(Trim(kv), "undefined")
    ensures '=' in kv ==>
      var k := IndexOf(kv, '=');
      e.key == Trim(kv[..k]) && UpToFirst(kv[k + 1..], '=', e.raw)
  {
    FieldParts(kv);
    var parts := Split(kv, '=');
    Entry(Trim(parts[0]), if |parts| >= 2 then parts[1] else "undefined")
  }

  /** What `kv.split('=')` gives for the name and the value. */
  lemma {:induction false} FieldParts(kv: string)
    ensures '=' !in kv ==> Split(kv, '=') == [kv]
    ensures '=' in kv ==>
      var k := IndexOf(kv, '=');
      var parts := Split(kv, '=');
      |parts| >= 2 && parts[0] == kv[..k] && UpToFirst(kv[k + 1..], '=', parts[1])
  {
    if '=' !in kv {
      SplitPlain(kv, '=');
    } else {
      var k := IndexOf(kv, '=');
      SplitAtFirst(kv, '=');
      SplitHead(kv[k + 1..], '=');
    }
  }

  function EntriesOf(kvs: seq<string>): (es: seq<Entry>)
    ensures |es| == |kvs|
  {
    seq(|kvs|, k requires 0 <= k < |kvs| => EntryOf(kvs[k]))
  }

  /** The entries `init` reads from the cookie text, in order; there is always at least one. */
  function Entries(text: string): (es: seq<Entry>)
    ensures |es| >= 1
  {
    EntriesOf(Split(text, ';'))
  }

  /** The cache and, if a decoding threw, its error. */
  datatype Loading = Loading(cache: map<string, string>, error: Option<string>)

  /**
   * `init`'s loop after `cache.clear()`: each entry decoded and stored in
   * turn, a later duplicate replacing an earlier one; a decoding that throws
   * ends the loop with what was stored so far.
   */
  function Load(es: seq<Entry>, decode: string -> Result<string>): (l: Loading)
    decreases |es|
  {
    if es == [] then Loading(map[], None)
    else
      var before := Load(es[..|es| - 1], decode);
      var e := es[|es| - 1];
      if before.error.Some? then before
      else match decode(e.raw)
        case Ok(v) => Loading(before.cache[e.key := v], None)
        case Err(msg) => Loading(before.cache, Some(msg))
  }

  /** The lazy start of `get` and `set`: `init` runs only on an empty cache. */
  function Ready(cache: map<string, string>, text: string, decode: string -> Result<string>): Loading {
    if |cache| == 0 then Load(Entries(text), decode) else Loading(cache, None)
  }

  /** A call's new cache and its result. */
  datatype Outcome<T> = Outcome(cache: map<string, string>, result: Result<T>)

  /** `CookieStorage.get(name, defaultValue)`. */
  function AfterGet(cache: map<string, string>, text: string, decode: string -> Result<string>,
                    name: string, defaultValue: string): Outcome<string>
  {
    var l := Ready(cache, text, decode);
    if l.error.Some? then Outcome(l.cache, Err(l.error.value))
    else
      var key := Trim(name);
      Outcome(l.cache, Ok(if key in l.cache then l.cache[key] else defaultValue))
  }

  /** `CookieStorage.set(name, val)`: name and value are trimmed. */
  function AfterSet(cache: map<string, string>, text: string, decode: string -> Result<string>,
                    name: string, val: string): Outcome<()>
  {
    var l := Ready(cache, text, decode);
    if l.error.Some? then Outcome(l.cache, Err(l.error.value))
    else Outcome(l.cache[Trim(name) := Trim(val)], Ok(()))
  }

  /** `CookieStorage.remove(name)`: no `init` first. */
  function AfterRemove(cache: map<string, string>, name: string): map<string, string> {
    cache - {Trim(name)}
  }

  // ---------------------------------------------------------------------------
  // Properties

  /** Every cached name is trimmed. */
  lemma {:induction false} LoadedKeysTrimmed(text: string, decode: string -> Result<string>)
    ensures forall k :: k in Load(Entries(text), decode).cache ==> Trim(k) == k
  {
    var es := Entries(text);
    forall i | 0 <= i < |es|
      ensures Trim(es[i].key) == es[i].key
    {
      TrimIdempotent(Split(Split(text, ';')[i], '=')[0]);
    }
    LoadKeysFrom(es, decode);
  }

  lemma {:induction false} LoadKeysFrom(es: seq<Entry>, decode: string -> Result<string>)
    ensures forall k :: k in Load(es, decode).cache ==> exists i :: 0 <= i < |es| && es[i].key == k
    decreases |es|
  {
    if es != [] {
      var init := es[..|es| - 1];
      LoadKeysFrom(init, decode);
      forall k | k in Load(es, decode).cache
        ensures exists i :: 0 <= i < |es| && es[i].key == k
      {
        if k in Load(init, decode).cache {
          var i :| 0 <= i < |init| && init[i].key == k;
          assert es[i] == init[i];
        } else {
          assert es[|es| - 1].key == k;
        }
      }
    }
  }

  /** A load without error stores at least one cookie, so `init` runs once until the cache is emptied. */
  lemma {:induction false} LoadFills(es: seq<Entry>, decode: string -> Result<string>)
    requires |es| >= 1 && Load(es, decode).error.None?
    ensures |Load(es, decode).cache| >= 1
    ensures es[|es| - 1].key in Load(es, decode).cache
  {
  }

  lemma {:induction false} ReadyFills(cache: map<string, string>, text: string, decode: string -> Result<string>)
    requires Ready(cache, text, decode).error.None?
    ensures |Ready(cache, text, decode).cache| >= 1 || |cache| >= 1
    ensures |cache| >= 1 ==> Ready(cache, text, decode) == Loading(cache, None)
  {
    if |cache| == 0 {
      LoadFills(Entries(text), decode);
    }
  }

  /** After a `get` that did not throw, the cookie text is never read again. */
  lemma {:induction false} InitRunsOnce(cache: map<string, string>, text: string, text2: string, decode: string -> Result<string>,
                     name: string, name2: string, dflt: string)
    requires AfterGet(cache, text, decode, name, dflt).result.Ok?
    ensures var c := AfterGet(cache, text, decode, name, dflt).cache;
      |c| >= 1 && AfterGet(c, text2, decode, name2, dflt).cache == c
  {
    var l := Ready(cache, text, decode);
    assert l.error.None?;
    ReadyFills(cache, text, decode);
    assert |l.cache| >= 1;
    ReadyFills(l.cache, text2, decode);
  }

  /** `get` finds what `set` stored, under any spelling of the name with surrounding white space. */
  lemma {:induction false} SetThenGet(cache: map<string, string>, text: string, text2: string, decode: string -> Result<string>,
                   name: string, name2: string, val: string, dflt: string)
    requires AfterSet(cache, text, decode, name, val).result.Ok?
    requires Trim(name2) == Trim(name)
    ensures AfterGet(AfterSet(cache, text, decode, name, val).cache, text2, decode, name2, dflt).result == Ok(Trim(val))
  {
  }

  /** After `remove`, `get` gives the default, unless the cache became empty: then the cookie text is read again. */
  lemma {:induction false} RemoveThenGet(cache: map<string, string>, text: string, decode: string -> Result<string>,
                      name: string, name2: string, dflt: string)
    requires Trim(name2) == Trim(name)
    ensures |AfterRemove(cache, name)| > 0 ==>
      AfterGet(AfterRemove(cache, name), text, decode, name2, dflt) == Outcome(AfterRemove(cache, name), Ok(dflt))
    ensures |AfterRemove(cache, name)| == 0 ==>
      AfterGet(AfterRemove(cache, name), text, decode, name2, dflt).cache == Load(Entries(text), decode).cache
  {
  }

  /** The value ends at the second `=`, and a field without `=` reads as "undefined". */
  lemma {:induction false} ValueCutAtEquals(key: string, a: string, b: string)
    requires '=' !in key && '=' !in a && ';' !in key
    ensures EntryOf(key + "=" + a + "=" + b).raw == a
    ensures EntryOf(key).raw == "undefined"
  {
    SplitAfterField(key, '=', a + "=" + b);
    assert key + "=" + a + "=" + b == key + ['='] + (a + "=" + b);
    SplitAfterField(a, '=', b);
    assert a + "=" + b == a + ['='] + b;
    SplitPlain(key, '=');
  }

  /** How a cookie field `name=value` is written back. */
  function Field(e: Entry): string {
    e.key + "=" + e.raw
  }

  function Fields(es: seq<Entry>): (fs: seq<string>)
    ensures |fs| == |es|
    ensures forall k :: 0 <= k < |es| ==> fs[k] == Field(es[k])
  {
    if es == [] then [] else [Field(es[0])] + Fields(es[1..])
  }

  /** A cookie field: a trimmed name, and neither part holds the separators. */
  predicate Plain(e: Entry) {
    Trim(e.key) == e.key && '=' !in e.key && ';' !in e.key && '=' !in e.raw && ';' !in e.raw
  }

  lemma {:induction false} EntryOfField(e: Entry)
    requires Plain(e)
    ensures EntryOf(Field(e)) == e
  {
    assert Field(e) == e.key + ['='] + e.raw;
    SplitAfterField(e.key, '=', e.raw);
    SplitPlain(e.raw, '=');
  }


  /** Reading a cookie text written as `name=value` fields joined by `;` gives back the fields. */
  lemma {:induction false} EntriesOfJoined(es: seq<Entry>)
    requires |es| >= 1
    requires forall k :: 0 <= k < |es| ==> Plain(es[k])
    ensures Entries(Join(Fields(es), ";")) == es
  {
    var fs := Fields(es);
    FieldsAvoidSemicolon(es);
    SplitOfJoin(fs, ';');
    FieldsReadBack(es);
  }

  lemma {:induction false} FieldsReadBack(es: seq<Entry>)
    requires forall k :: 0 <= k < |es| ==> Plain(es[k])
    ensures EntriesOf(Fields(es)) == es
  {
    var fs := Fields(es);
    forall k | 0 <= k < |es|
      ensures EntryOf(fs[k]) == es[k]
    {
      EntryOfField(es[k]);
    }
  }

  lemma {:induction false} FieldsAvoidSemicolon(es: seq<Entry>)
    requires forall k :: 0 <= k < |es| ==> Plain(es[k])
    ensures forall k :: 0 <= k < |es| ==> ';' !in Fields(es)[k]
  {
    forall k | 0 <= k < |es|
      ensures ';' !in Fields(es)[k]
    {
      assert Fields(es)[k] == es[k].key + "=" + es[k].raw;
    }
  }

  /** With a decoder that never throws, each name holds the value of its last field. */
  function LastRaw(es: seq<Entry>, key: string): Option<string>
    decreases |es|
  {
    if es == [] then None
    else if es[|es| - 1].key == key then Some(es[|es| - 1].raw)
    else LastRaw(es[..|es| - 1], key)
  }

  lemma {:induction false} LastFieldWins(es: seq<Entry>, decode: string -> Result<string>, key: string)
    requires forall s :: decode(s).Ok?
    ensures Load(es, decode).error.None?
    ensures key in Load(es, decode).cache <==> LastRaw(es, key).Some?
    ensures LastRaw(es, key).Some? ==> Load(es, decode).cache[key] == decode(LastRaw(es, key).value).value
    decreases |es|
  {
    if es != [] {
      LastFieldWins(es[..|es| - 1], decode, key);
      assert decode(es[|es| - 1].raw).Ok?;
    }
  }

  // ---------------------------------------------------------------------------
  // The static class

  class CookieStorage {
    var cache: map<string, string>
    const decode: string -> Result<string>

    /** `CookieStorage.cache = new Map()`. */
    constructor (decode: string -> Result<string>)
      ensures cache == map[] && this.decode == decode
    {
      cache := map[];
      this.decode := decode;
    }

    /** `CookieStorage.init`, on the current `document.cookie` text. */
    method Init(text: string) returns (error: Option<string>)
      modifies this
      ensures Loading(cache, error) == Load(Entries(text), decode)
    {
      error := LoadEntries(Entries(text));
    }

    /** `cache.clear()` and the loop over the entries. */
    method LoadEntries(es: seq<Entry>) returns (error: Option<string>)
      modifies this
      ensures Loading(cache, error) == Load(es, decode)
    {
      cache := map[];
      error := None;
      for i := 0 to |es|
        invariant Loading(cache, error) == Load(es[..i], decode)
        invariant error.None?
      {
        assert es[..i + 1][..i] == es[..i];
        var e := es[i];
        var decoded := decode(e.raw);
        if decoded.Err? {
          error := Some(decoded.error);
          FailedLoadStays(es, decode, i + 1);
          return;
        }
        cache := cache[e.key := decoded.value];
      }
      assert es[..|es|] == es;
    }

    method Get(name: string, defaultValue: string, text: string) returns (r: Result<string>)
      modifies this
      ensures Outcome(cache, r) == AfterGet(old(cache), text, decode, name, defaultValue)
    {
      if |cache| == 0 {
        var error := Init(text);
        if error.Some? {
          return Err(error.value);
        }
      }
      var key := Trim(name);
      if key !in cache {
        return Ok(defaultValue);
      }
      return Ok(cache[key]);
    }

    method Set(name: string, val: string, text: string) returns (r: Result<()>)
      modifies this
      ensures Outcome(cache, r) == AfterSet(old(cache), text, decode, name, val)
    {
      if |cache| == 0 {
        var error := Init(text);
        if error.Some? {
          return Err(error.value);
        }
      }
      cache := cache[Trim(name) := Trim(val)];
      r := Ok(());
    }

    method Remove(name: string)
      modifies this
      ensures cache == AfterRemove(old(cache), name)
    {
      cache := cache - {Trim(name)};
    }
  }

  /** Once a decoding threw, the later entries change nothing. */
  lemma {:induction false} FailedLoadStays(es: seq<Entry>, decode: string -> Result<string>, n: nat)
    requires n <= |es| && Load(es[..n], decode).error.Some?
    ensures Load(es, decode) == Load(es[..n], decode)
    decreases |es| - n
  {
    if n < |es| {
      assert es[..n + 1][..n] == es[..n];
      FailedLoadStays(es, decode, n + 1);
    } else {
      assert es[..n] == es;
    }
  }
}
