/**
 * `Version` and the `UpdateHandler.checkVersion` gate of js/core.js.
 *
 * A version holds three components. `fromArray` runs `parseInt(v, 10)` on each
 * part, so a component is an integer or NaN; spreading an empty array leaves
 * the major component undefined, while a missing minor or patch takes the
 * constructor's default 0. The comparisons use JavaScript's `<`, `>` and `===`,
 * which are all false when NaN or undefined takes part.
 */
module Versions {
  import opened Wrappers
  import opened JsRuntime
  import SyncedStore

  datatype Component = Int(value: int) | NaN | Undefined

  datatype Version = Version(major: Component, minor: Component, patch: Component)

  /** `Info.version`. */
  const InfoVersion: string := "1.3.1"

  /** `parseInt(v, 10)` read as a component. */
  function ParseComponent(s: string): Component {
    match ParseInt(s, true)
    case Some(n) => Int(n)
    case None => NaN
  }

  /** `Version.fromArray`: parts beyond the third are ignored; missing minor and patch parts are 0. */
  function FromArray(parts: seq<string>): (v: Version)
    ensures |parts| >= 1 ==> v.major == ParseComponent(parts[0])
    ensures |parts| == 0 ==> v.major == Undefined
    ensures v.minor == (if |parts| >= 2 then ParseComponent(parts[1]) else Int(0))
    ensures v.patch == (if |parts| >= 3 then ParseComponent(parts[2]) else Int(0))
  {
    Version(
      if |parts| >= 1 then ParseComponent(parts[0]) else Undefined,
      if |parts| >= 2 then ParseComponent(parts[1]) else Int(0),
      if |parts| >= 3 then ParseComponent(parts[2]) else Int(0))
  }

  /** `Version.fromString`: a string always splits into at least one part, so the major part is never undefined. */
  function FromString(s: string): (v: Version)
    ensures v.major != Undefined
  {
    FromArray(Split(s, '.'))
  }

  function ComponentString(c: Component): string {
    match c
    case Int(n) => IntToString(n)
    case NaN => "NaN"
    case Undefined => "undefined"
  }

  /** `Version.toString`: the three components joined by dots. */
  function ToString(v: Version): string {
    Join([ComponentString(v.major), ComponentString(v.minor), ComponentString(v.patch)], ".")
  }

  // ---------------------------------------------------------------------------
  // JavaScript's comparison operators on components

  predicate Less(a: Component, b: Component) {
    a.Int? && b.Int? && a.value < b.value
  }

  predicate Greater(a: Component, b: Component) {
    a.Int? && b.Int? && a.value > b.value
  }

  /** `===`: NaN equals nothing, undefined equals undefined. */
  predicate StrictEquals(a: Component, b: Component) {
    (a.Int? && b.Int? && a.value == b.value) || (a.Undefined? && b.Undefined?)
  }

  predicate IsSame(a: Version, b: Version) {
    StrictEquals(a.major, b.major) && StrictEquals(a.minor, b.minor) && StrictEquals(a.patch, b.patch)
  }

  predicate IsBefore(a: Version, b: Version) {
    if Less(a.major, b.major) then true
    else if Greater(a.major, b.major) then false
    else if Less(a.minor, b.minor) then true
    else if Greater(a.minor, b.minor) then false
    else Less(a.patch, b.patch)
  }

  predicate IsSameOrBefore(a: Version, b: Version) {
    if Less(a.major, b.major) then true
    else if Greater(a.major, b.major) then false
    else if Less(a.minor, b.minor) then true
    else if Greater(a.minor, b.minor) then false
    else !Greater(a.patch, b.patch)
  }

  predicate IsAfter(a: Version, b: Version) {
    IsBefore(b, a)
  }

  predicate IsSameOrAfter(a: Version, b: Version) {
    IsSameOrBefore(b, a)
  }

  predicate IsCurrent(v: Version) {
    IsSameOrAfter(v, FromString(InfoVersion))
  }

  // ---------------------------------------------------------------------------
  // Ordering

  predicate IsIntVersion(v: Version) {
    v.major.Int? && v.minor.Int? && v.patch.Int?
  }

  /** Lexicographic order on (major, minor, patch), stated on the integers. */
  predicate LexLess(a: Version, b: Version)
    requires IsIntVersion(a) && IsIntVersion(b)
  {
    a.major.value < b.major.value
    || (a.major.value == b.major.value && a.minor.value < b.minor.value)
    || (a.major.value == b.major.value && a.minor.value == b.minor.value && a.patch.value < b.patch.value)
  }

  /** On integer versions `isBefore` is lexicographic order, `isSame` is equality, and `isSameOrBefore` is their union. */
  lemma {:induction false} BeforeIsLexicographic(a: Version, b: Version)
    requires IsIntVersion(a) && IsIntVersion(b)
    ensures IsBefore(a, b) <==> LexLess(a, b)
    ensures IsSame(a, b) <==> a == b
    ensures IsSameOrBefore(a, b) <==> IsBefore(a, b) || IsSame(a, b)
    ensures IsAfter(a, b) <==> LexLess(b, a)
    ensures IsSameOrAfter(a, b) <==> IsAfter(a, b) || IsSame(a, b)
  {
  }

  /** `isBefore` is a strict total order on integer versions. */
  lemma {:induction false} BeforeIsStrictTotalOrder(a: Version, b: Version, c: Version)
    requires IsIntVersion(a) && IsIntVersion(b) && IsIntVersion(c)
    ensures !IsBefore(a, a)
    ensures IsBefore(a, b) && IsBefore(b, c) ==> IsBefore(a, c)
    ensures IsBefore(a, b) || IsSame(a, b) || IsAfter(a, b)
    ensures !(IsBefore(a, b) && IsAfter(a, b))
  {
    BeforeIsLexicographic(a, b);
    BeforeIsLexicographic(b, c);
    BeforeIsLexicographic(a, c);
    BeforeIsLexicographic(a, a);
  }

  /** With a NaN component the union breaks: `isSameOrBefore` holds while neither `isBefore` nor `isSame` does. */
  lemma {:induction false} SameOrBeforeWithNaN(b: Version)
    requires b.minor.Int? && b.patch.Int?
    ensures var a := Version(NaN, b.minor, b.patch);
      IsSameOrBefore(a, b) && !IsBefore(a, b) && !IsSame(a, b)
  {
  }

  // ---------------------------------------------------------------------------
  // Parsing and printing

  lemma {:induction false} ParseComponentOfInt(n: int)
    ensures ParseComponent(IntToString(n)) == Int(n)
  {
    ParseIntToString(n, true);
  }

  /** `fromString(v.toString())` gives back the same components. */
  lemma {:induction false} FromStringToString(v: Version)
    requires IsIntVersion(v)
    ensures FromString(ToString(v)) == v
  {
    var parts := [IntToString(v.major.value), IntToString(v.minor.value), IntToString(v.patch.value)];
    assert forall i :: 0 <= i < |parts| ==> '.' !in parts[i];
    SplitOfJoin(parts, '.');
    ParseComponentOfInt(v.major.value);
    ParseComponentOfInt(v.minor.value);
    ParseComponentOfInt(v.patch.value);
  }

  /** Missing minor and patch parts read as 0. */
  lemma {:induction false} MissingPartsAreZero(major: int, minor: int)
    ensures FromString(IntToString(major)) == Version(Int(major), Int(0), Int(0))
    ensures FromString(IntToString(major) + "." + IntToString(minor)) == Version(Int(major), Int(minor), Int(0))
  {
    var a, b := IntToString(major), IntToString(minor);
    SplitPlain(a, '.');
    SplitPlain(b, '.');
    SplitAfterField(a, '.', b);
    ParseComponentOfInt(major);
    ParseComponentOfInt(minor);
  }

  // ---------------------------------------------------------------------------
  // UpdateHandler.checkVersion

  /** What `checkVersion` does besides storing the new version. */
  datatype UpdateActions = UpdateActions(showChangelog: bool, runUpdate: bool, migrateFrom: Option<Version>)

  const NoActions: UpdateActions := UpdateActions(false, false, None)

  /**
   * The decision of `checkVersion`, given what `SyncedStorage.get` returns for
   * "version" and "version_show". A stored version that is not a string has
   * no `split` method, so `fromString` throws.
   */
  function UpdateGate(stored: SyncedStore.JsValue, versionShow: SyncedStore.JsValue): (r: Result<UpdateActions>)
    ensures r.Err? <==> !stored.Str?
    ensures r.Ok? ==> (r.value.runUpdate <==> IsBefore(FromString(stored.s), FromString(InfoVersion)))
    ensures r.Ok? && r.value.runUpdate ==>
      r.value.migrateFrom == Some(FromString(stored.s)) && r.value.showChangelog == SyncedStore.Truthy(versionShow)
    ensures r.Ok? && !r.value.runUpdate ==> r.value == NoActions
  {
    if !stored.Str? then Err("TypeError: version.split is not a function")
    else
      var last := FromString(stored.s);
      var current := FromString(InfoVersion);
      if IsAfter(current, last) then
        Ok(UpdateActions(SyncedStore.Truthy(versionShow), true, Some(last)))
      else Ok(NoActions)
  }

  lemma {:induction false} InfoVersionParts()
    ensures FromString(InfoVersion) == Version(Int(1), Int(3), Int(1))
  {
    var v := Version(Int(1), Int(3), Int(1));
    assert IntToString(1) == "1" && IntToString(3) == "3";
    assert ToString(v) == InfoVersion;
    FromStringToString(v);
  }

  /** Once the current version is stored, the gate stays closed. */
  lemma {:induction false} GateClosedAtCurrentVersion(versionShow: SyncedStore.JsValue)
    ensures UpdateGate(SyncedStore.Str(InfoVersion), versionShow) == Ok(NoActions)
  {
    InfoVersionParts();
  }

  /** For a stored integer version, the gate opens exactly when it is lexicographically older than 1.3.1. */
  lemma {:induction false} GateOpensForOlderVersion(v: Version, versionShow: SyncedStore.JsValue)
    requires IsIntVersion(v)
    ensures UpdateGate(SyncedStore.Str(ToString(v)), versionShow).Ok?
    ensures UpdateGate(SyncedStore.Str(ToString(v)), versionShow).value.runUpdate
      <==> LexLess(v, Version(Int(1), Int(3), Int(1)))
  {
    InfoVersionParts();
    FromStringToString(v);
    BeforeIsLexicographic(v, Version(Int(1), Int(3), Int(1)));
  }

  /**
   * `UpdateHandler.checkVersion` on a storage object. The changelog dialog,
   * the `onUpdate` callback and `_migrateSettings` come back as actions; the
   * storage change made here is the write of the current version.
   */
  method CheckVersion(storage: SyncedStore.SyncedStorage) returns (r: Result<UpdateActions>)
    requires storage.Valid()
    modifies storage
    ensures storage.Valid()
    ensures r == UpdateGate(old(storage.GetKey("version")), old(storage.GetKey("version_show")))
    ensures r.Ok? ==> storage.State() == SyncedStore.Set(old(storage.State()), "version", SyncedStore.Str(InfoVersion))
    ensures r.Err? ==> storage.State() == old(storage.State())
  {
    var stored := storage.GetKey("version");
    var versionShow := storage.GetKey("version_show");
    r := UpdateGate(stored, versionShow);
    if r.Err? {
      return;
    }
    storage.SetKey("version", SyncedStore.Str(InfoVersion));
  }
}
