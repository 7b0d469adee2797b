/**
 * The in-memory side of `SyncedStorage` (js/core.js): a cache object whose
 * keys keep their insertion order, read through a table of defaults. The
 * writes forwarded to the browser's storage adapter are outside the model.
 */
module SyncedStore {

  /** The JavaScript values a setting can hold. */
  datatype JsValue =
    | Undefined
    | Null
    | Bool(b: bool)
    | Num(n: int)
    | Str(s: string)
    | Arr(items: seq<JsValue>)
    | Obj(fields: map<string, JsValue>)

  /** JavaScript truthiness (the numbers here are integers, so NaN does not arise). */
  predicate Truthy(v: JsValue) {
    match v
    case Undefined => false
    case Null => false
    case Bool(b) => b
    case Num(n) => n != 0
    case Str(s) => s != []
    case _ => true
  }

  predicate Distinct(s: seq<string>) {
    forall i, j :: 0 <= i < j < |s| ==> s[i] != s[j]
  }

  lemma {:induction false} DistinctCons(x: string, r: seq<string>)
    ensures Distinct([x] + r) <==> x !in r && Distinct(r)
  {
    var s := [x] + r;
    assert forall i :: 0 <= i < |r| ==> s[i + 1] == r[i];
    if x !in r && Distinct(r) {
      forall i, j | 0 <= i < j < |s| ensures s[i] != s[j] {
        if i == 0 {
          assert s[j] == r[j - 1];
        }
      }
    }
    if Distinct(s) {
      forall i, j | 0 <= i < j < |r| ensures r[i] != r[j] {
        assert s[i + 1] != s[j + 1];
      }
      forall k | 0 <= k < |r| ensures r[k] != x {
        assert s[0] != s[k + 1];
      }
    }
  }

  /** The cache object: its properties and the order `Object.keys` lists them in. */
  datatype Store = Store(cache: map<string, JsValue>, order: seq<string>)

  ghost predicate WellFormed(st: Store) {
    Distinct(st.order) && (forall k :: k in st.cache <==> k in st.order)
  }

  const EmptyStore: Store := Store(map[], [])

  // ---------------------------------------------------------------------------
  // The operations, on values

  /** `SyncedStorage.has`: an own property of the cache, even one set to undefined. */
  predicate Has(st: Store, key: string) {
    key in st.cache
  }

  /** `SyncedStorage.get`: the cached value unless it is undefined, else the default. */
  function Get(st: Store, defaults: map<string, JsValue>, key: string): (v: JsValue)
    ensures v != Undefined ==>
      (key in st.cache && v == st.cache[key]) || (key in defaults && v == defaults[key])
    ensures v == Undefined ==>
      (key !in st.cache || st.cache[key] == Undefined) && (key !in defaults || defaults[key] == Undefined)
  {
    if key in st.cache && st.cache[key] != Undefined then st.cache[key]
    else if key in defaults then defaults[key]
    else Undefined
  }

  /** `SyncedStorage.set`: a fresh key goes to the end of the key order. */
  function Set(st: Store, key: string, value: JsValue): Store {
    Store(st.cache[key := value], if key in st.cache then st.order else st.order + [key])
  }

  /** The key order with one key taken out. */
  function Without(order: seq<string>, key: string): (r: seq<string>)
    ensures forall k :: k in r <==> k in order && k != key
    ensures Distinct(order) ==> Distinct(r)
    ensures |r| <= |order|
  {
    if order == [] then []
    else
      var rest := Without(order[1..], key);
      assert order == [order[0]] + order[1..];
      DistinctCons(order[0], order[1..]);
      DistinctCons(order[0], rest);
      assert forall k :: k in order <==> k == order[0] || k in order[1..];
      if order[0] == key then rest else [order[0]] + rest
  }

  /** `SyncedStorage.remove`: its guard `typeof cache[key]` is a non-empty string, so it always deletes. */
  function Remove(st: Store, key: string): Store {
    Store(st.cache - {key}, Without(st.order, key))
  }

  /** `SyncedStorage.clear`. */
  function Clear(st: Store): Store {
    EmptyStore
  }

  /** `SyncedStorage.keys(prefix)`: the cache keys that start with the prefix, in key order. */
  function Keys(st: Store, prefix: string): seq<string> {
    KeysWithPrefix(st.order, prefix)
  }

  function KeysWithPrefix(order: seq<string>, prefix: string): (r: seq<string>)
    ensures |r| <= |order|
  {
    if order == [] then []
    else if prefix <= order[0] then [order[0]] + KeysWithPrefix(order[1..], prefix)
    else KeysWithPrefix(order[1..], prefix)
  }

  // ---------------------------------------------------------------------------
  // What the cache promises

  lemma {:induction false} SetWellFormed(st: Store, key: string, value: JsValue)
    requires WellFormed(st)
    ensures WellFormed(Set(st, key, value))
  {
    var order := Set(st, key, value).order;
    if key !in st.cache {
      forall i, j | 0 <= i < j < |order| ensures order[i] != order[j] {
        if j == |st.order| {
          assert order[i] == st.order[i];
          assert st.order[i] in st.cache;
        }
      }
    }
  }

  lemma {:induction false} RemoveWellFormed(st: Store, key: string)
    requires WellFormed(st)
    ensures WellFormed(Remove(st, key))
  {
  }

  /** `set(k, v)` then `get(k)` gives v back, unless v is undefined, which reads as the default. */
  lemma {:induction false} SetThenGet(st: Store, defaults: map<string, JsValue>, key: string, value: JsValue)
    ensures value != Undefined ==> Get(Set(st, key, value), defaults, key) == value
    ensures value == Undefined ==>
      Get(Set(st, key, value), defaults, key) == (if key in defaults then defaults[key] else Undefined)
    ensures Has(Set(st, key, value), key)
  {
  }

  /** Setting one key leaves every other key's reading alone. */
  lemma {:induction false} SetOtherKey(st: Store, defaults: map<string, JsValue>, key: string, value: JsValue, other: string)
    requires other != key
    ensures Get(Set(st, key, value), defaults, other) == Get(st, defaults, other)
    ensures Has(Set(st, key, value), other) == Has(st, other)
  {
  }

  /** A key missing from the cache reads as its default. */
  lemma {:induction false} GetMissing(st: Store, defaults: map<string, JsValue>, key: string)
    requires !Has(st, key)
    ensures Get(st, defaults, key) == (if key in defaults then defaults[key] else Undefined)
  {
  }

  /** After `remove(k)`, `has(k)` is false and `get(k)` falls back to the default. */
  lemma {:induction false} RemoveThenHas(st: Store, defaults: map<string, JsValue>, key: string)
    ensures !Has(Remove(st, key), key)
    ensures key !in Keys(Remove(st, key), [])
    ensures Get(Remove(st, key), defaults, key) == (if key in defaults then defaults[key] else Undefined)
  {
    KeysExactly(Without(st.order, key), []);
  }

  lemma {:induction false} KeysExactly(order: seq<string>, prefix: string)
    ensures forall k :: k in KeysWithPrefix(order, prefix) <==> k in order && prefix <= k
    ensures Distinct(order) ==> Distinct(KeysWithPrefix(order, prefix))
  {
    if order != [] {
      KeysExactly(order[1..], prefix);
      assert order == [order[0]] + order[1..];
      DistinctCons(order[0], order[1..]);
      DistinctCons(order[0], KeysWithPrefix(order[1..], prefix));
      assert forall k :: k in order <==> k == order[0] || k in order[1..];
    }
  }

  /** `keys(p)` lists exactly the cache keys that start with p, each once. */
  lemma {:induction false} KeysAreCacheKeys(st: Store, prefix: string)
    requires WellFormed(st)
    ensures forall k :: k in Keys(st, prefix) <==> k in st.cache && prefix <= k
    ensures Distinct(Keys(st, prefix))
  {
    KeysExactly(st.order, prefix);
  }

  /** A key set for the first time is listed after every key already there. */
  lemma {:induction false} KeysAfterFreshSet(order: seq<string>, key: string, prefix: string)
    requires prefix <= key
    ensures KeysWithPrefix(order + [key], prefix) == KeysWithPrefix(order, prefix) + [key]
  {
    if order == [] {
      assert [] + [key] == [key];
    } else {
      assert (order + [key])[1..] == order[1..] + [key];
      KeysAfterFreshSet(order[1..], key, prefix);
    }
  }

  /** After `clear()` nothing is cached: every key reads as its default and no key is listed. */
  lemma {:induction false} ClearEmpties(st: Store, defaults: map<string, JsValue>, key: string, prefix: string)
    ensures !Has(Clear(st), key)
    ensures Keys(Clear(st), prefix) == []
    ensures Get(Clear(st), defaults, key) == (if key in defaults then defaults[key] else Undefined)
  {
  }

  // ---------------------------------------------------------------------------
  // The defaults the rest of the model reads (a part of the table at js/core.js:467-672)

  const Defaults: map<string, JsValue> := map[
    "language" := Str("english"),
    "version" := Str("1.3.1"),
    "version_show" := Bool(true),
    "highlight_owned_color" := Str("#00ce67"),
    "highlight_wishlist_color" := Str("#0491bf"),
    "highlight_coupon_color" := Str("#a26426"),
    "highlight_inv_gift_color" := Str("#800040"),
    "highlight_inv_guestpass_color" := Str("#513c73"),
    "highlight_notinterested_color" := Str("#4f4f4f"),
    "highlight_collection_color" := Str("#856d0e"),
    "highlight_waitlist_color" := Str("#4c7521"),
    "tag_owned_color" := Str("#00b75b"),
    "tag_wishlist_color" := Str("#0383b4"),
    "tag_coupon_color" := Str("#c27120"),
    "tag_inv_gift_color" := Str("#b10059"),
    "tag_inv_guestpass_color" := Str("#65449a"),
    "tag_notinterested_color" := Str("#4f4f4f"),
    "tag_collection_color" := Str("#856d0e"),
    "tag_waitlist_color" := Str("#4c7521"),
    "highlight_owned" := Bool(true),
    "highlight_wishlist" := Bool(true),
    "highlight_coupon" := Bool(false),
    "highlight_inv_gift" := Bool(false),
    "highlight_inv_guestpass" := Bool(false),
    "highlight_notinterested" := Bool(false),
    "highlight_excludef2p" := Bool(false),
    "highlight_notdiscounted" := Bool(false),
    "highlight_collection" := Bool(true),
    "highlight_waitlist" := Bool(true),
    "tag_owned" := Bool(false),
    "tag_wishlist" := Bool(false),
    "tag_coupon" := Bool(false),
    "tag_inv_gift" := Bool(false),
    "tag_inv_guestpass" := Bool(false),
    "tag_notinterested" := Bool(true),
    "tag_collection" := Bool(false),
    "tag_waitlist" := Bool(false),
    "tag_short" := Bool(false),
    "hide_owned" := Bool(false),
    "hide_ignored" := Bool(false)
  ]

  // ---------------------------------------------------------------------------
  // The static class, with its cache updated in place

  class SyncedStorage {
    var cache: map<string, JsValue>
    var order: seq<string>
    const defaults: map<string, JsValue>

    function State(): Store
      reads this
    {
      Store(cache, order)
    }

    ghost predicate Valid()
      reads this
    {
      WellFormed(State())
    }

    /** The cache starts as `{}`. */
    constructor (defaults: map<string, JsValue>)
      ensures Valid() && State() == EmptyStore && this.defaults == defaults
    {
      cache := map[];
      order := [];
      this.defaults := defaults;
    }

    predicate HasKey(key: string)
      reads this
    {
      Has(State(), key)
    }

    function GetKey(key: string): JsValue
      reads this
    {
      Get(State(), defaults, key)
    }

    function KeyList(prefix: string): seq<string>
      reads this
    {
      Keys(State(), prefix)
    }

    method SetKey(key: string, value: JsValue)
      requires Valid()
      modifies this
      ensures Valid()
      ensures State() == Set(old(State()), key, value)
    {
      SetWellFormed(State(), key, value);
      if key !in cache {
        order := order + [key];
      }
      cache := cache[key := value];
    }

    method RemoveKey(key: string)
      requires Valid()
      modifies this
      ensures Valid()
      ensures State() == Remove(old(State()), key)
    {
      RemoveWellFormed(State(), key);
      cache := cache - {key};
      order := Without(order, key);
    }

    method ClearAll()
      modifies this
      ensures Valid()
      ensures State() == Clear(old(State()))
    {
      cache := map[];
      order := [];
    }
  }
}
