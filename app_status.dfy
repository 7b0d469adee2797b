/**
 * The three providers of js/content/common.js that tell the highlighter what
 * the user has: `DynamicStore.getAppStatus` (owned, wishlisted, ignored),
 * `ITAD.getAppStatus` (collected, waitlisted) and `Inventory.getAppStatus`
 * (gifts, guest passes, coupons). Each accepts one id or an array of ids;
 * the background page's answers are inputs, an `Err` standing for a call
 * that rejected.
 *
 * The answers are JavaScript objects keyed by the string form of an id. The
 * numeric keys that `GameId.trimStoreId` produces are written `Option<int>`:
 * `Some(n)` for an integer, `None` for `NaN` (and, as `Number` is modelled,
 * for any other non-integer result).
 */
module AppStatus {
  import opened Wrappers
  import opened GameIds

  type TrimmedId = Option<int>

  /**
   * `for (let id of ids) result[id] = f(id)` on a fresh object: one entry per
   * distinct id; a repeated id is written again with the same value.
   */
  function Tabulate<K(==,!new), V>(ids: seq<K>, f: K -> V): (m: map<K, V>)
    ensures forall k :: k in m <==> k in ids
    ensures forall k :: k in m ==> m[k] == f(k)
  {
    if ids == [] then map[]
    else
      var front := ids[..|ids| - 1];
      assert ids == front + [ids[|ids| - 1]];
      Tabulate(front, f)[ids[|ids| - 1] := f(ids[|ids| - 1])]
  }

  // ---------------------------------------------------------------------------
  // DynamicStore.getAppStatus

  /** `owned` is absent (`None`) for ids that are neither apps nor packages. */
  datatype DsStatus = DsStatus(ignored: bool, wishlisted: bool, owned: Option<bool>)

  /** The status one id gets from the list of flags the dynamic store reports for it. */
  function DsStatusOf(storeId: string, flags: seq<string>): (s: DsStatus)
    ensures s.ignored <==> "ignored" in flags
    ensures s.wishlisted <==> "wishlisted" in flags
    ensures s.owned.Some? <==> "app/" <= storeId || "sub/" <= storeId
    ensures "app/" <= storeId ==> s.owned == Some("ownedApps" in flags)
    ensures "sub/" <= storeId ==> s.owned == Some("ownedPackages" in flags)
  {
    assert ("app/" <= storeId ==> storeId[0] == 'a') && ("sub/" <= storeId ==> storeId[0] == 's');
    DsStatus("ignored" in flags, "wishlisted" in flags,
      if "app/" <= storeId then Some("ownedApps" in flags)
      else if "sub/" <= storeId then Some("ownedPackages" in flags)
      else None)
  }

  /**
   * The single-id form: the background is asked about `trimStoreId(storeId)`
   * and its list of flags is read. An `Err` answer is a rejected call or a
   * missing list, on which `includes` throws.
   */
  function DynamicStoreStatus(storeId: string, answer: Result<seq<string>>): (r: Result<DsStatus>)
    ensures r.Ok? <==> answer.Ok?
    ensures r.Ok? ==> (r.value.owned.None? <==> !("app/" <= storeId) && !("sub/" <= storeId))
  {
    if answer.Err? then Err(answer.error)
    else Ok(DsStatusOf(storeId, answer.value))
  }

  /** The entry for one id; an id whose list is missing never gets here. */
  function DsEntry(lists: map<TrimmedId, seq<string>>, id: string): DsStatus {
    DsStatusOf(id, if TrimStoreId(id) in lists then lists[TrimStoreId(id)] else [])
  }

  /** Every id's trimmed form has an entry in the answer. */
  predicate HasAllTrimmed<V>(storeIds: seq<string>, answer: map<TrimmedId, V>) {
    forall id :: id in storeIds ==> TrimStoreId(id) in answer
  }

  /**
   * The array form: the background answers for the trimmed ids, and the
   * result is keyed by the untrimmed ids. A trimmed id without a list makes
   * `includes` throw, which rejects the call.
   */
  function DynamicStoreStatuses(storeIds: seq<string>, answer: Result<map<TrimmedId, seq<string>>>)
    : (r: Result<map<string, DsStatus>>)
    ensures r.Ok? <==> answer.Ok? && HasAllTrimmed(storeIds, answer.value)
    ensures r.Ok? ==> forall id :: id in r.value <==> id in storeIds
    ensures r.Ok? ==> forall id :: id in r.value ==>
      r.value[id] == DsStatusOf(id, answer.value[TrimStoreId(id)])
  {
    if answer.Err? then Err(answer.error)
    else if !HasAllTrimmed(storeIds, answer.value) then Err("TypeError")
    else
      Ok(Tabulate(storeIds, (id: string) => DsEntry(answer.value, id)))
  }

  /** Each entry of the array form is what the single-id form gives for that id's list. */
  lemma {:induction false} DsStatusesAgreeWithSingle(storeIds: seq<string>, lists: map<TrimmedId, seq<string>>, id: string)
    requires DynamicStoreStatuses(storeIds, Ok(lists)).Ok? && id in storeIds
    ensures DynamicStoreStatus(id, Ok(lists[TrimStoreId(id)])) == Ok(DynamicStoreStatuses(storeIds, Ok(lists)).value[id])
  {
  }

  /** Two ids of the same kind and trimmed id get the same status, whatever the rest of the text. */
  lemma {:induction false} DsStatusSharedByTrimmedId(storeIds: seq<string>, lists: map<TrimmedId, seq<string>>, a: string, b: string)
    requires DynamicStoreStatuses(storeIds, Ok(lists)).Ok? && a in storeIds && b in storeIds
    requires TrimStoreId(a) == TrimStoreId(b)
    requires ("app/" <= a <==> "app/" <= b) && ("sub/" <= a <==> "sub/" <= b)
    ensures DynamicStoreStatuses(storeIds, Ok(lists)).value[a] == DynamicStoreStatuses(storeIds, Ok(lists)).value[b]
  {
  }

  // ---------------------------------------------------------------------------
  // ITAD.getAppStatus

  /** `None` is `undefined`. */
  datatype ItadStatus = ItadStatus(collected: Option<bool>, waitlisted: Option<bool>)

  /**
   * The array form. Without a connection nothing is asked and both lookups
   * are the empty object; with one the collection is asked for only when
   * `highlight_collection` is on. The waitlist lookup is always the empty
   * object (the endpoint is a placeholder), so `highlight_waitlist` changes
   * nothing and no id is ever waitlisted.
   */
  function ItadStatuses(storeIds: seq<string>, connected: Result<bool>, highlightCollection: bool,
                        inCollection: Result<map<string, bool>>): (r: Result<map<string, ItadStatus>>)
    ensures r.Ok? <==> connected.Ok? && (connected.value && highlightCollection ==> inCollection.Ok?)
    ensures r.Ok? ==> forall id :: id in r.value <==> id in storeIds
    ensures r.Ok? ==> forall id :: id in r.value ==> r.value[id].waitlisted.None?
    ensures r.Ok? ==> forall id :: id in r.value ==>
      r.value[id].collected ==
        if connected.value && highlightCollection && id in inCollection.value then Some(inCollection.value[id])
        else None
  {
    if connected.Err? then Err(connected.error)
    else
      var asked := connected.value && highlightCollection;
      if asked && inCollection.Err? then Err(inCollection.error)
      else
        var collection: map<string, bool> := if asked then inCollection.value else map[];
        var waitlist: map<string, bool> := map[];
        Ok(Tabulate(storeIds, (id: string) =>
          ItadStatus(if id in collection then Some(collection[id]) else None,
                     if id in waitlist then Some(waitlist[id]) else None)))
  }

  /** The single-id form: a lookup that is not made resolves to `false`. */
  function ItadStatusOne(connected: Result<bool>, highlightCollection: bool, inCollection: Result<bool>)
    : (r: Result<ItadStatus>)
    ensures r.Ok? <==> connected.Ok? && (connected.value && highlightCollection ==> inCollection.Ok?)
    ensures r.Ok? ==> r.value.waitlisted == Some(false)
    ensures r.Ok? ==> (r.value.collected == Some(true) <==> connected.value && highlightCollection && inCollection.value)
  {
    if connected.Err? then Err(connected.error)
    else if connected.value && highlightCollection then
      if inCollection.Err? then Err(inCollection.error) else Ok(ItadStatus(Some(inCollection.value), Some(false)))
    else Ok(ItadStatus(Some(false), Some(false)))
  }

  /** Neither form ever reports an id as waitlisted, and without a connection none as collected. */
  lemma {:induction false} ItadNeverWaitlisted(storeIds: seq<string>, connected: Result<bool>, highlightCollection: bool,
                            many: Result<map<string, bool>>, one: Result<bool>, id: string)
    ensures var r := ItadStatuses(storeIds, connected, highlightCollection, many);
      r.Ok? && id in r.value ==>
        r.value[id].waitlisted != Some(true) && (!connected.value ==> r.value[id].collected != Some(true))
    ensures var r := ItadStatusOne(connected, highlightCollection, one);
      r.Ok? ==>
        r.value.waitlisted != Some(true) && (!connected.value ==> r.value.collected != Some(true))
  {
  }

  // ---------------------------------------------------------------------------
  // Inventory.getAppStatus

  /** `coupon` holds what the background answered; `None` is `null` or `undefined`. */
  datatype InvStatus = InvStatus(gift: bool, guestPass: bool, coupon: Option<bool>)

  /** `getStatusObject`. */
  function StatusObject(giftsAndPasses: seq<string>, hasCoupon: Option<bool>): (s: InvStatus)
    ensures s.gift <==> "gifts" in giftsAndPasses
    ensures s.guestPass <==> "passes" in giftsAndPasses
    ensures s.coupon == hasCoupon
  {
    InvStatus("gifts" in giftsAndPasses, "passes" in giftsAndPasses, hasCoupon)
  }

  /** What every id gets when anything failed: no gift, no pass, a `null` coupon. */
  const FailedStatus: InvStatus := StatusObject([], None)

  /** The two answers `hasgiftsandpasses` and `hascoupon` give for an array of ids. */
  datatype InvAnswer = InvAnswer(giftsAndPasses: map<TrimmedId, seq<string>>, coupons: map<TrimmedId, bool>)

  function CouponOf(coupons: map<TrimmedId, bool>, id: TrimmedId): Option<bool> {
    if id in coupons then Some(coupons[id]) else None
  }

  /**
   * The array form. A rejected call, or an id without a gift list (on which
   * `includes` throws), is caught, and then every id gets the failed status:
   * the inventory never makes the highlighter fail.
   */
  function InventoryStatuses(ids: seq<TrimmedId>, answer: Result<InvAnswer>): (r: map<TrimmedId, InvStatus>)
    ensures forall id :: id in r <==> id in ids
    ensures answer.Ok? && (forall id :: id in ids ==> id in answer.value.giftsAndPasses) ==>
      forall id :: id in r ==>
        r[id] == StatusObject(answer.value.giftsAndPasses[id], CouponOf(answer.value.coupons, id))
    ensures !(answer.Ok? && (forall id :: id in ids ==> id in answer.value.giftsAndPasses)) ==>
      forall id :: id in r ==> r[id] == InvStatus(false, false, None)
  {
    if answer.Ok? && (forall id :: id in ids ==> id in answer.value.giftsAndPasses) then
      var a := answer.value;
      Tabulate(ids, (id: TrimmedId) =>
        StatusObject(if id in a.giftsAndPasses then a.giftsAndPasses[id] else [], CouponOf(a.coupons, id)))
    else Tabulate(ids, (id: TrimmedId) => FailedStatus)
  }

  /** The single-id form; an `Err` is a rejected call or a missing gift list. */
  function InventoryStatus(answer: Result<(seq<string>, Option<bool>)>): (s: InvStatus)
    ensures answer.Err? ==> s == InvStatus(false, false, None)
    ensures answer.Ok? ==> s.coupon == answer.value.1
  {
    if answer.Err? then FailedStatus else StatusObject(answer.value.0, answer.value.1)
  }

  /** Each entry of the array form is what the single-id form gives for that id's answers. */
  lemma {:induction false} InventoryAgreesWithSingle(ids: seq<TrimmedId>, a: InvAnswer, id: TrimmedId)
    requires forall k :: k in ids ==> k in a.giftsAndPasses
    requires id in ids
    ensures InventoryStatuses(ids, Ok(a))[id] == InventoryStatus(Ok((a.giftsAndPasses[id], CouponOf(a.coupons, id))))
  {
  }

  /** One id without a gift list costs every id its status, including those answered before it. */
  lemma {:induction false} InventoryFailsTogether(ids: seq<TrimmedId>, a: InvAnswer, missing: TrimmedId, id: TrimmedId)
    requires missing in ids && missing !in a.giftsAndPasses && id in ids
    ensures !InventoryStatuses(ids, Ok(a))[id].gift && !InventoryStatuses(ids, Ok(a))[id].guestPass
    ensures InventoryStatuses(ids, Ok(a))[id].coupon.None?
  {
  }
}
