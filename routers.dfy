/**
 * The `/stores` and `/items` routers over the two tables. `ShoppingDb` holds
 * the committed contents of both tables and their id sequences; each handler
 * is one method that either commits or leaves the tables as they were.
 */
module Routers {
  import opened Wrappers
  import opened Text
  import opened Models
  import opened Schemas
  import opened Listing

  const StoreNotFound: string := "Store not found"
  const ItemNotFound: string := "Item not found"
  const StoreDeleted: string := "Store deleted successfully"
  const ItemDeleted: string := "Item deleted successfully"

  /**
   * `Store(**store.model_dump())` inserted at time `now`. The ORM leaves a
   * None attribute out of the INSERT, so the column default fills it.
   */
  function InsertedStore(id: int, c: StoreCreate, now: nat): (r: StoreRow)
    ensures r.id == id && r.createdAt == now && StoreMeetsConstraints(r)
    ensures r.color.Some? && r.icon.Some?
    ensures c.color.Some? ==> r.color == c.color
    ensures c.icon.Some? ==> r.icon == c.icon
  {
    StoreRow(id, Some(c.name), Some(c.color.GetOr(DefaultStoreColor)), Some(c.icon.GetOr(DefaultStoreIcon)), now)
  }

  /** `ShoppingItem(**item.model_dump())`: `is_checked` is not in the schema, so its column default applies. */
  function InsertedItem(id: int, c: ItemCreate, now: nat): (r: ItemRow)
    ensures r.id == id && r.createdAt == now && ItemMeetsConstraints(r, {c.storeId})
    ensures r.quantity.Some? && r.isChecked == Some(DefaultIsChecked)
  {
    ItemRow(id, Some(c.name), Some(c.quantity), Some(c.storeId), c.needByDate, Some(DefaultIsChecked), now)
  }

  /** A store created without color or icon, or with them sent as null, gets the defaults. */
  lemma CreatedStoreFields(b: StoreCreateBody, id: int, now: nat)
    requires ValidateStoreCreate(b).Success?
    ensures var row := InsertedStore(id, ValidateStoreCreate(b).value, now);
      && row.id == id && row.createdAt == now
      && row.name == Some(Strip(b.name.value))
      && row.color == (if b.color.Value? then Some(Strip(b.color.value)) else Some(DefaultStoreColor))
      && row.icon == (if b.icon.Value? then Some(Strip(b.icon.value)) else Some(DefaultStoreIcon))
  {
  }

  /** The column defaults carry no surrounding white space. */
  lemma ColumnDefaultsStripped()
    ensures IsStripped(DefaultStoreColor) && IsStripped(DefaultStoreIcon) && IsStripped(DefaultQuantity)
  {
    SchemaDefaultsStripped();
  }

  /**
   * An item created without a quantity gets "1"; it always starts unchecked,
   * and its date is null unless one was sent.
   */
  lemma CreatedItemFields(b: ItemCreateBody, id: int, now: nat)
    requires ValidateItemCreate(b).Success?
    ensures var row := InsertedItem(id, ValidateItemCreate(b).value, now);
      && row.id == id && row.createdAt == now
      && row.name == Some(Strip(b.name.value))
      && row.quantity == (if b.quantity.Value? then Some(Strip(b.quantity.value)) else Some(DefaultQuantity))
      && row.storeId == Some(b.storeId.value)
      && row.needByDate == (if b.needByDate.Value? then Some(b.needByDate.value) else None)
      && row.isChecked == Some(false)
  {
  }

  /** The value a partial update leaves in a string column. */
  function AssignedText(f: Field<string>, current: Option<string>): Option<string> {
    match f
    case Unset => current
    case Null => None
    case Value(s) => Some(Strip(s))
  }

  function Assigned<T>(f: Field<T>, current: Option<T>): Option<T> {
    match f
    case Unset => current
    case Null => None
    case Value(v) => Some(v)
  }

  /** A partial update, field by field: a key that was sent is written (null as None), the rest is kept. */
  function PatchedStore(row: StoreRow, b: StoreUpdateBody): StoreRow {
    row.(name := AssignedText(b.name, row.name), color := AssignedText(b.color, row.color),
         icon := AssignedText(b.icon, row.icon))
  }

  function PatchedItem(row: ItemRow, b: ItemUpdateBody): ItemRow {
    row.(name := AssignedText(b.name, row.name), quantity := AssignedText(b.quantity, row.quantity),
         storeId := Assigned(b.storeId, row.storeId), needByDate := Assigned(b.needByDate, row.needByDate),
         isChecked := Assigned(b.isChecked, row.isChecked))
  }

  /** `setattr(db_store, key, value)` */
  function SetStoreAttr(row: StoreRow, a: StoreAttr): StoreRow {
    match a
    case StoreName(v) => row.(name := v)
    case StoreColor(v) => row.(color := v)
    case StoreIcon(v) => row.(icon := v)
  }

  function SetStoreAttrs(row: StoreRow, data: seq<StoreAttr>): StoreRow
    decreases |data|
  {
    if data == [] then row else SetStoreAttrs(SetStoreAttr(row, data[0]), data[1..])
  }

  /** `setattr(db_item, key, value)` */
  function SetItemAttr(row: ItemRow, a: ItemAttr): ItemRow {
    match a
    case ItemName(v) => row.(name := v)
    case ItemQuantity(v) => row.(quantity := v)
    case ItemStoreId(v) => row.(storeId := v)
    case ItemNeedByDate(v) => row.(needByDate := v)
    case ItemIsChecked(v) => row.(isChecked := v)
  }

  function SetItemAttrs(row: ItemRow, data: seq<ItemAttr>): ItemRow
    decreases |data|
  {
    if data == [] then row else SetItemAttrs(SetItemAttr(row, data[0]), data[1..])
  }

  lemma {:induction false} SetStoreAttrsAppend(row: StoreRow, a: seq<StoreAttr>, b: seq<StoreAttr>)
    ensures SetStoreAttrs(row, a + b) == SetStoreAttrs(SetStoreAttrs(row, a), b)
    decreases |a|
  {
    if a == [] {
      assert a + b == b;
    } else {
      assert (a + b)[1..] == a[1..] + b;
      SetStoreAttrsAppend(SetStoreAttr(row, a[0]), a[1..], b);
    }
  }

  lemma {:induction false} SetItemAttrsAppend(row: ItemRow, a: seq<ItemAttr>, b: seq<ItemAttr>)
    ensures SetItemAttrs(row, a + b) == SetItemAttrs(SetItemAttrs(row, a), b)
    decreases |a|
  {
    if a == [] {
      assert a + b == b;
    } else {
      assert (a + b)[1..] == a[1..] + b;
      SetItemAttrsAppend(SetItemAttr(row, a[0]), a[1..], b);
    }
  }

  /** Writing the keys the client set, one after another, is the field-by-field partial update. */
  lemma StoreUpdateMeaning(row: StoreRow, b: StoreUpdateBody)
    ensures SetStoreAttrs(row, StoreUpdateData(b)) == PatchedStore(row, b)
  {
    var n := if b.name.Unset? then [] else [StoreName(StripOption(Sent(b.name)))];
    var c := if b.color.Unset? then [] else [StoreColor(StripOption(Sent(b.color)))];
    var i := if b.icon.Unset? then [] else [StoreIcon(StripOption(Sent(b.icon)))];
    assert StoreUpdateData(b) == n + c + i;
    SetStoreAttrsAppend(row, n + c, i);
    SetStoreAttrsAppend(row, n, c);
  }

  lemma ItemUpdateMeaning(row: ItemRow, b: ItemUpdateBody)
    ensures SetItemAttrs(row, ItemUpdateData(b)) == PatchedItem(row, b)
  {
    var n := if b.name.Unset? then [] else [ItemName(StripOption(Sent(b.name)))];
    var q := if b.quantity.Unset? then [] else [ItemQuantity(StripOption(Sent(b.quantity)))];
    var s := if b.storeId.Unset? then [] else [ItemStoreId(Sent(b.storeId))];
    var d := if b.needByDate.Unset? then [] else [ItemNeedByDate(Sent(b.needByDate))];
    var c := if b.isChecked.Unset? then [] else [ItemIsChecked(Sent(b.isChecked))];
    assert ItemUpdateData(b) == n + q + s + d + c;
    ItemPatchSteps(row, b, n, q, s, d, c);
  }

  /** The item patch, one optional entry at a time. */
  lemma ItemPatchSteps(row: ItemRow, b: ItemUpdateBody,
                       n: seq<ItemAttr>, q: seq<ItemAttr>, s: seq<ItemAttr>, d: seq<ItemAttr>, c: seq<ItemAttr>)
    requires n == if b.name.Unset? then [] else [ItemName(StripOption(Sent(b.name)))]
    requires q == if b.quantity.Unset? then [] else [ItemQuantity(StripOption(Sent(b.quantity)))]
    requires s == if b.storeId.Unset? then [] else [ItemStoreId(Sent(b.storeId))]
    requires d == if b.needByDate.Unset? then [] else [ItemNeedByDate(Sent(b.needByDate))]
    requires c == if b.isChecked.Unset? then [] else [ItemIsChecked(Sent(b.isChecked))]
    ensures SetItemAttrs(row, n + q + s + d + c) == PatchedItem(row, b)
  {
    SetItemAttrsAppend(row, n + q + s + d, c);
    SetItemAttrsAppend(row, n + q + s, d);
    SetItemAttrsAppend(row, n + q, s);
    SetItemAttrsAppend(row, n, q);
    var r1 := SetItemAttrs(row, n);
    assert r1 == row.(name := AssignedText(b.name, row.name));
    var r2 := SetItemAttrs(r1, q);
    assert r2 == r1.(quantity := AssignedText(b.quantity, row.quantity));
    var r3 := SetItemAttrs(r2, s);
    assert r3 == r2.(storeId := Assigned(b.storeId, row.storeId));
    var r4 := SetItemAttrs(r3, d);
    assert r4 == r3.(needByDate := Assigned(b.needByDate, row.needByDate));
  }

  /** The `for key, value in update_data.items(): setattr(...)` loop of `update_store`. */
  method ApplyStoreUpdate(row: StoreRow, b: StoreUpdateBody) returns (r: StoreRow)
    ensures r == PatchedStore(row, b)
  {
    var data := StoreUpdateData(b);
    r := row;
    for i := 0 to |data|
      invariant SetStoreAttrs(r, data[i..]) == SetStoreAttrs(row, data)
    {
      assert data[i..][1..] == data[i + 1..];
      r := SetStoreAttr(r, data[i]);
    }
    assert data[|data|..] == [];
    StoreUpdateMeaning(row, b);
  }

  /** The same loop in `update_item`. */
  method ApplyItemUpdate(row: ItemRow, b: ItemUpdateBody) returns (r: ItemRow)
    ensures r == PatchedItem(row, b)
  {
    var data := ItemUpdateData(b);
    r := row;
    for i := 0 to |data|
      invariant SetItemAttrs(r, data[i..]) == SetItemAttrs(row, data)
    {
      assert data[i..][1..] == data[i + 1..];
      r := SetItemAttr(r, data[i]);
    }
    assert data[|data|..] == [];
    ItemUpdateMeaning(row, b);
  }

  lemma AssignedTextStripped(f: Field<string>, current: Option<string>)
    requires IsStrippedOption(current)
    ensures IsStrippedOption(AssignedText(f, current))
  {
    if f.Value? {
      TrimIsTrimmed(f.value, UnicodeWhiteSpace);
    }
  }

  /** A partial update never changes the id or the creation time, and keeps every stored string stripped. */
  lemma PatchedStoreKeepsIdentity(row: StoreRow, b: StoreUpdateBody)
    requires StoreRowStripped(row)
    ensures PatchedStore(row, b).id == row.id && PatchedStore(row, b).createdAt == row.createdAt
    ensures StoreRowStripped(PatchedStore(row, b))
  {
    AssignedTextStripped(b.name, row.name);
    AssignedTextStripped(b.color, row.color);
    AssignedTextStripped(b.icon, row.icon);
  }

  lemma PatchedItemKeepsIdentity(row: ItemRow, b: ItemUpdateBody)
    requires ItemRowStripped(row)
    ensures PatchedItem(row, b).id == row.id && PatchedItem(row, b).createdAt == row.createdAt
    ensures ItemRowStripped(PatchedItem(row, b))
  {
    AssignedTextStripped(b.name, row.name);
    AssignedTextStripped(b.quantity, row.quantity);
  }

  /** The items that survive deleting store `storeId`: the relationship cascade removes the store's own. */
  function WithoutStore(items: map<int, ItemRow>, storeId: int): (r: map<int, ItemRow>)
    ensures forall k :: k in r <==> k in items && items[k].storeId != Some(storeId)
    ensures forall k :: k in r ==> r[k] == items[k]
  {
    map k | k in items && items[k].storeId != Some(storeId) :: items[k]
  }

  predicate StoreRowValid(row: StoreRow, id: int, nextId: nat, clock: nat) {
    row.id == id && 0 < id < nextId && StoreMeetsConstraints(row) && StoreRowStripped(row) && row.createdAt < clock
  }

  predicate ItemRowValid(row: ItemRow, id: int, nextId: nat, clock: nat, storeIds: set<int>) {
    row.id == id && 0 < id < nextId && ItemMeetsConstraints(row, storeIds) && ItemRowStripped(row)
    && row.createdAt < clock
  }

  /** The store responses for `ids`, in that order. */
  function StoreResponses(m: map<int, StoreRow>, ids: seq<int>): (r: seq<StoreResponse>)
    requires forall i :: 0 <= i < |ids| ==> ids[i] in m && m[ids[i]].name.Some?
    ensures |r| == |ids|
    ensures forall i :: 0 <= i < |ids| ==> Success(r[i]) == StoreOut(m[ids[i]])
  {
    if ids == [] then [] else [StoreOut(m[ids[0]]).value] + StoreResponses(m, ids[1..])
  }

  /** Every store the ids cover is listed, and nothing else. */
  lemma StoreResponsesMembers(m: map<int, StoreRow>, ids: seq<int>)
    requires forall i :: 0 <= i < |ids| ==> ids[i] in m && m[ids[i]].name.Some? && m[ids[i]].id == ids[i]
    requires forall k :: k in m ==> k in ids
    ensures forall s :: s in StoreResponses(m, ids) <==> s.id in m && StoreOut(m[s.id]) == Success(s)
  {
    var listed := StoreResponses(m, ids);
    forall s | s in listed ensures s.id in m && StoreOut(m[s.id]) == Success(s) {
      var i :| 0 <= i < |listed| && listed[i] == s;
      assert StoreOut(m[ids[i]]).value.id == ids[i];
    }
    forall s: StoreResponse | s.id in m && StoreOut(m[s.id]) == Success(s) ensures s in listed {
      var i :| 0 <= i < |ids| && ids[i] == s.id;
      assert listed[i] == s;
    }
  }

  predicate ListableItems(items: map<int, ItemRow>, stores: map<int, StoreRow>, ids: seq<int>) {
    forall i :: 0 <= i < |ids| ==>
      ids[i] in items && items[ids[i]].storeId.Some? && items[ids[i]].storeId.value in stores
  }

  function ItemOutAt(items: map<int, ItemRow>, stores: map<int, StoreRow>, id: int): Result<ItemResponse, ApiError>
    requires id in items && items[id].storeId.Some? && items[id].storeId.value in stores
  {
    ItemOut(items[id], stores[items[id].storeId.value])
  }

  /** `x` is the response of the item stored under its id. */
  predicate IsItemResponseOf(items: map<int, ItemRow>, stores: map<int, StoreRow>, x: ItemResponse) {
    && x.id in items && items[x.id].storeId.Some? && items[x.id].storeId.value in stores
    && ItemOutAt(items, stores, x.id) == Success(x)
  }

  /** The item responses for `ids`, in that order; one row that does not fit the schema fails the whole list. */
  function ItemResponses(items: map<int, ItemRow>, stores: map<int, StoreRow>, ids: seq<int>)
    : (r: Result<seq<ItemResponse>, ApiError>)
    requires ListableItems(items, stores, ids)
    ensures r.Success? <==> forall i :: 0 <= i < |ids| ==> ItemOutAt(items, stores, ids[i]).Success?
    ensures r.Success? ==> |r.value| == |ids|
    ensures r.Success? ==> forall i :: 0 <= i < |ids| ==> Success(r.value[i]) == ItemOutAt(items, stores, ids[i])
  {
    if ids == [] then Success([])
    else
      match ItemOutAt(items, stores, ids[0])
      case Failure(e) => Failure(e)
      case Success(x) =>
        match ItemResponses(items, stores, ids[1..])
        case Failure(e) => Failure(e)
        case Success(xs) => Success([x] + xs)
  }

  /** A serialized item carries its row's id and creation time. */
  lemma ItemOutKeepsIdentity(row: ItemRow, store: StoreRow)
    ensures ItemOut(row, store).Success? ==>
      ItemOut(row, store).value.id == row.id && ItemOut(row, store).value.createdAt == row.createdAt
  {
  }

  /** Listing items in an order of strictly decreasing ids lists them newest first, each once. */
  lemma ItemResponsesNewestFirst(items: map<int, ItemRow>, stores: map<int, StoreRow>, ids: seq<int>)
    requires ListableItems(items, stores, ids)
    requires forall k :: k in items ==> items[k].id == k && k in ids
    requires forall i, j :: 0 <= i < j < |ids| ==> ids[i] > ids[j]
    requires forall a, b :: a in items && b in items && a < b ==> items[a].createdAt < items[b].createdAt
    requires ItemResponses(items, stores, ids).Success?
    ensures var r := ItemResponses(items, stores, ids).value;
      && (forall i, j :: 0 <= i < j < |r| ==> r[i].createdAt > r[j].createdAt)
      && (forall x :: x in r <==> IsItemResponseOf(items, stores, x))
  {
    var r := ItemResponses(items, stores, ids).value;
    forall i | 0 <= i < |ids| ensures r[i].id == ids[i] && r[i].createdAt == items[ids[i]].createdAt {
      var row := items[ids[i]];
      ItemOutKeepsIdentity(row, stores[row.storeId.value]);
    }
    forall x | x in r ensures IsItemResponseOf(items, stores, x) {
      var i :| 0 <= i < |r| && r[i] == x;
    }
    forall x: ItemResponse | IsItemResponseOf(items, stores, x) ensures x in r {
      var i :| 0 <= i < |ids| && ids[i] == x.id;
      assert r[i] == x;
    }
  }

  /**
   * Ids are the keys they are stored under and below their sequence; every
   * row meets its column constraints (so every item's store exists); stored
   * strings are stripped; items created later have later `created_at`.
   */
  ghost predicate Consistent(stores: map<int, StoreRow>, items: map<int, ItemRow>, nextStoreId: nat, nextItemId: nat, clock: nat) {
    && 0 < nextStoreId && 0 < nextItemId
    && (forall id :: id in stores ==> StoreRowValid(stores[id], id, nextStoreId, clock))
    && (forall id :: id in items ==> ItemRowValid(items[id], id, nextItemId, clock, stores.Keys))
    && (forall a, b :: a in items && b in items && a < b ==> items[a].createdAt < items[b].createdAt)
  }

  lemma ConsistentAfterStoreInsert(stores: map<int, StoreRow>, items: map<int, ItemRow>, nextStoreId: nat, nextItemId: nat, clock: nat, row: StoreRow)
    requires Consistent(stores, items, nextStoreId, nextItemId, clock)
    requires StoreRowValid(row, nextStoreId, nextStoreId + 1, clock + 1)
    ensures Consistent(stores[nextStoreId := row], items, nextStoreId + 1, nextItemId, clock + 1)
  {
    var st := stores[nextStoreId := row];
    forall id | id in items ensures ItemRowValid(items[id], id, nextItemId, clock + 1, st.Keys) {
      assert ItemRowValid(items[id], id, nextItemId, clock, stores.Keys);
    }
  }

  lemma ConsistentAfterItemInsert(stores: map<int, StoreRow>, items: map<int, ItemRow>, nextStoreId: nat, nextItemId: nat, clock: nat, row: ItemRow)
    requires Consistent(stores, items, nextStoreId, nextItemId, clock)
    requires ItemRowValid(row, nextItemId, nextItemId + 1, clock + 1, stores.Keys) && row.createdAt == clock
    ensures Consistent(stores, items[nextItemId := row], nextStoreId, nextItemId + 1, clock + 1)
  {
    var it := items[nextItemId := row];
    forall a, b | a in it && b in it && a < b ensures it[a].createdAt < it[b].createdAt {
      if b == nextItemId {
        assert ItemRowValid(items[a], a, nextItemId, clock, stores.Keys);
      }
    }
  }

  /** A rejected insert still draws an id from the sequence. */
  lemma ConsistentAfterIdDrawn(stores: map<int, StoreRow>, items: map<int, ItemRow>, nextStoreId: nat, nextItemId: nat, clock: nat)
    requires Consistent(stores, items, nextStoreId, nextItemId, clock)
    ensures Consistent(stores, items, nextStoreId, nextItemId + 1, clock)
  {
    forall id | id in items ensures ItemRowValid(items[id], id, nextItemId + 1, clock, stores.Keys) {
      assert ItemRowValid(items[id], id, nextItemId, clock, stores.Keys);
    }
  }

  /**
   * Inserting a validated item for an existing store under the next id keeps
   * the invariant, and the new row serializes to a response with that id.
   */
  lemma ItemInsert(stores: map<int, StoreRow>, items: map<int, ItemRow>, nextStoreId: nat, nextItemId: nat, clock: nat, c: ItemCreate)
    requires Consistent(stores, items, nextStoreId, nextItemId, clock)
    requires IsStripped(c.name) && IsStripped(c.quantity) && c.storeId in stores
    ensures nextItemId !in items
    ensures Consistent(stores, items[nextItemId := InsertedItem(nextItemId, c, clock)], nextStoreId, nextItemId + 1, clock + 1)
    ensures var st := stores[c.storeId];
      ItemOut(InsertedItem(nextItemId, c, clock), st) == Success(ItemResponse(nextItemId, c.name, c.quantity,
        c.storeId, c.needByDate, DefaultIsChecked, clock, StoreResponse(st.id, st.name.value, st.color, st.icon, st.createdAt)))
  {
    var row := InsertedItem(nextItemId, c, clock);
    ConsistentAfterItemInsert(stores, items, nextStoreId, nextItemId, clock, row);
    assert StoreRowValid(stores[c.storeId], c.storeId, nextStoreId, clock);
    ItemOutEchoesRow(row, stores[c.storeId]);
  }

  /** Under the invariant, an item's response exists exactly when its quantity and checked flag are set. */
  lemma ItemsListable(stores: map<int, StoreRow>, items: map<int, ItemRow>, nextStoreId: nat, nextItemId: nat, clock: nat, ids: seq<int>)
    requires Consistent(stores, items, nextStoreId, nextItemId, clock)
    requires forall i :: 0 <= i < |ids| ==> ids[i] in items
    requires forall k :: k in items ==> k in ids
    ensures ListableItems(items, stores, ids)
    ensures (forall i :: 0 <= i < |ids| ==> ItemOutAt(items, stores, ids[i]).Success?)
      <==> (forall id :: id in items ==> items[id].quantity.Some? && items[id].isChecked.Some?)
  {
    forall i | 0 <= i < |ids|
      ensures ItemRowValid(items[ids[i]], ids[i], nextItemId, clock, stores.Keys)
    {
    }
    assert ListableItems(items, stores, ids);
    forall id | id in items
      ensures ItemOutAt(items, stores, id).Success? <==> items[id].quantity.Some? && items[id].isChecked.Some?
    {
      var sid := items[id].storeId.value;
      assert StoreRowValid(stores[sid], sid, nextStoreId, clock);
      ItemOutEchoesRow(items[id], stores[sid]);
    }
    if forall i :: 0 <= i < |ids| ==> ItemOutAt(items, stores, ids[i]).Success? {
      forall id | id in items ensures items[id].quantity.Some? && items[id].isChecked.Some? {
        var i :| 0 <= i < |ids| && ids[i] == id;
        assert ItemOutAt(items, stores, ids[i]).Success?;
      }
    }
  }

  /** The item listing: every item once, newest first, or a failure exactly when some row does not fit the schema. */
  lemma ItemListing(stores: map<int, StoreRow>, items: map<int, ItemRow>, nextStoreId: nat, nextItemId: nat, clock: nat)
    requires Consistent(stores, items, nextStoreId, nextItemId, clock)
    ensures ListableItems(items, stores, IdsBelow(items.Keys, nextItemId))
    ensures var r := ItemResponses(items, stores, IdsBelow(items.Keys, nextItemId));
      && (r.Success? <==> forall id :: id in items ==> items[id].quantity.Some? && items[id].isChecked.Some?)
      && (r.Success? ==> |r.value| == |items|)
      && (r.Success? ==> forall i, j :: 0 <= i < j < |r.value| ==> r.value[i].createdAt > r.value[j].createdAt)
      && (r.Success? ==> forall x :: x in r.value <==> IsItemResponseOf(items, stores, x))
  {
    var ids := IdsBelow(items.Keys, nextItemId);
    IdsBelowCoversKeys(items.Keys, nextItemId);
    assert forall i :: 0 <= i < |ids| ==> ids[i] in ids;
    ItemsListable(stores, items, nextStoreId, nextItemId, clock, ids);
    if ItemResponses(items, stores, ids).Success? {
      ItemResponsesNewestFirst(items, stores, ids);
    }
  }

  class ShoppingDb {
    var stores: map<int, StoreRow>
    var items: map<int, ItemRow>
    /** The next values of the two id sequences. */
    var nextStoreId: nat
    var nextItemId: nat
    /** Logical time standing in for `func.now()`. */
    var clock: nat

    ghost predicate Valid()
      reads this
    {
      Consistent(stores, items, nextStoreId, nextItemId, clock)
    }

    constructor ()
      ensures Valid()
      ensures stores == map[] && items == map[] && nextStoreId == 1 && nextItemId == 1 && clock == 0
    {
      stores, items := map[], map[];
      nextStoreId, nextItemId, clock := 1, 1, 0;
    }

    /** GET /stores: every store once, ordered by name. */
    function GetStores(): (r: seq<StoreResponse>)
      reads this
      requires Valid()
      ensures SortedByName(r)
      ensures |r| == |stores|
      ensures forall s :: s in r <==> s.id in stores && StoreOut(stores[s.id]) == Success(s)
    {
      var ids := IdsBelow(stores.Keys, nextStoreId);
      IdsBelowCoversKeys(stores.Keys, nextStoreId);
      StoreResponsesMembers(stores, ids);
      var listed := StoreResponses(stores, ids);
      var r := SortByName(listed);
      assert |r| == |multiset(r)| == |multiset(listed)| == |listed|;
      assert forall s :: s in r <==> s in multiset(listed);
      r
    }

    /** GET /items: every item once, newest first, each with its store; fails if a row does not fit the schema. */
    function GetItems(): (r: Result<seq<ItemResponse>, ApiError>)
      reads this
      requires Valid()
      ensures r.Success? <==> forall id :: id in items ==> items[id].quantity.Some? && items[id].isChecked.Some?
      ensures r.Success? ==> |r.value| == |items|
      ensures r.Success? ==> forall i, j :: 0 <= i < j < |r.value| ==> r.value[i].createdAt > r.value[j].createdAt
      ensures r.Success? ==> forall x :: x in r.value <==> IsItemResponseOf(items, stores, x)
    {
      ItemListing(stores, items, nextStoreId, nextItemId, clock);
      ItemResponses(items, stores, IdsBelow(items.Keys, nextItemId))
    }

    /** POST /stores */
    method CreateStore(b: StoreCreateBody) returns (r: Result<StoreResponse, ApiError>)
      requires Valid()
      modifies this
      ensures Valid()
      ensures ValidateStoreCreate(b).Failure? ==> r == Failure(Unprocessable) && unchanged(this)
      ensures ValidateStoreCreate(b).Success? ==>
        var id := old(nextStoreId);
        && id !in old(stores)
        && stores == old(stores)[id := InsertedStore(id, ValidateStoreCreate(b).value, old(clock))]
        && items == old(items)
        && nextStoreId == id + 1 && nextItemId == old(nextItemId) && clock == old(clock) + 1
        && r.Success? && r.value.id == id && r == StoreOut(stores[id])
    {
      var v := ValidateStoreCreate(b);
      if v.Failure? {
        return Failure(Unprocessable);
      }
      ValidStoreCreateStripped(b);
      ColumnDefaultsStripped();
      var id := nextStoreId;
      var row := InsertedStore(id, v.value, clock);
      ConsistentAfterStoreInsert(stores, items, nextStoreId, nextItemId, clock, row);
      nextStoreId := nextStoreId + 1;
      clock := clock + 1;
      stores := stores[id := row];
      StoreOutEchoesRow(row);
      r := StoreOut(row);
    }

    /** PATCH /stores/{id} */
    method UpdateStore(id: int, b: StoreUpdateBody) returns (r: Result<StoreResponse, ApiError>)
      requires Valid()
      modifies this
      ensures Valid()
      ensures id !in old(stores) ==> r == Failure(NotFound(StoreNotFound)) && unchanged(this)
      ensures id in old(stores) && PatchedStore(old(stores)[id], b).name.None? ==>
        r == Failure(IntegrityViolation) && unchanged(this)
      ensures id in old(stores) && PatchedStore(old(stores)[id], b).name.Some? ==>
        && stores == old(stores)[id := PatchedStore(old(stores)[id], b)]
        && items == old(items)
        && nextStoreId == old(nextStoreId) && nextItemId == old(nextItemId) && clock == old(clock)
        && r.Success? && r.value.id == id && r == StoreOut(stores[id])
    {
      if id !in stores {
        return Failure(NotFound(StoreNotFound));
      }
      var row := ApplyStoreUpdate(stores[id], b);
      if !StoreMeetsConstraints(row) {
        return Failure(IntegrityViolation);
      }
      PatchedStoreKeepsIdentity(stores[id], b);
      stores := stores[id := row];
      r := StoreOut(row);
    }

    /** DELETE /stores/{id}: the store goes, and with it every item that belongs to it. */
    method DeleteStore(id: int) returns (r: Result<Message, ApiError>)
      requires Valid()
      modifies this
      ensures Valid()
      ensures id !in old(stores) ==> r == Failure(NotFound(StoreNotFound)) && unchanged(this)
      ensures id in old(stores) ==>
        && r == Success(Message(StoreDeleted))
        && stores == old(stores) - {id}
        && items == WithoutStore(old(items), id)
        && nextStoreId == old(nextStoreId) && nextItemId == old(nextItemId) && clock == old(clock)
    {
      if id !in stores {
        return Failure(NotFound(StoreNotFound));
      }
      stores := stores - {id};
      items := WithoutStore(items, id);
      r := Success(Message(StoreDeleted));
    }

    /** POST /items. A store id that names no store is refused by the foreign key, after the id is drawn. */
    method CreateItem(b: ItemCreateBody) returns (r: Result<ItemResponse, ApiError>)
      requires Valid()
      modifies this
      ensures Valid()
      ensures ValidateItemCreate(b).Failure? ==> r == Failure(Unprocessable) && unchanged(this)
      ensures ValidateItemCreate(b).Success? && ValidateItemCreate(b).value.storeId !in old(stores) ==>
        && r == Failure(IntegrityViolation)
        && stores == old(stores) && items == old(items) && clock == old(clock)
        && nextStoreId == old(nextStoreId) && nextItemId == old(nextItemId) + 1
      ensures ValidateItemCreate(b).Success? && ValidateItemCreate(b).value.storeId in old(stores) ==>
        var id := old(nextItemId);
        var c := ValidateItemCreate(b).value;
        && id !in old(items)
        && items == old(items)[id := InsertedItem(id, c, old(clock))]
        && stores == old(stores)
        && nextItemId == id + 1 && nextStoreId == old(nextStoreId) && clock == old(clock) + 1
        && r.Success? && r.value.id == id && r == ItemOut(items[id], stores[c.storeId])
    {
      var v := ValidateItemCreate(b);
      if v.Failure? {
        return Failure(Unprocessable);
      }
      var c := v.value;
      var id := nextItemId;
      if c.storeId !in stores {
        ConsistentAfterIdDrawn(stores, items, nextStoreId, nextItemId, clock);
        nextItemId := nextItemId + 1;
        return Failure(IntegrityViolation);
      }
      ValidItemCreateStripped(b);
      ItemInsert(stores, items, nextStoreId, nextItemId, clock, c);
      var row := InsertedItem(id, c, clock);
      r := ItemOut(row, stores[c.storeId]);
      nextItemId := id + 1;
      clock := clock + 1;
      items := items[id := row];
    }

    /**
     * PATCH /items/{id}. The update is committed whenever the constraints
     * hold; the response can still fail afterwards if a null was written to
     * `quantity` or `is_checked`.
     */
    method UpdateItem(id: int, b: ItemUpdateBody) returns (r: Result<ItemResponse, ApiError>)
      requires Valid()
      modifies this
      ensures Valid()
      ensures id !in old(items) ==> r == Failure(NotFound(ItemNotFound)) && unchanged(this)
      ensures id in old(items) && !ItemMeetsConstraints(PatchedItem(old(items)[id], b), old(stores).Keys) ==>
        r == Failure(IntegrityViolation) && unchanged(this)
      ensures id in old(items) && ItemMeetsConstraints(PatchedItem(old(items)[id], b), old(stores).Keys) ==>
        && items == old(items)[id := PatchedItem(old(items)[id], b)]
        && stores == old(stores)
        && nextStoreId == old(nextStoreId) && nextItemId == old(nextItemId) && clock == old(clock)
        && r == ItemOut(items[id], stores[items[id].storeId.value])
        && (r.Success? <==> items[id].quantity.Some? && items[id].isChecked.Some?)
        && (r.Success? ==> r.value.id == id)
    {
      if id !in items {
        return Failure(NotFound(ItemNotFound));
      }
      var row := ApplyItemUpdate(items[id], b);
      if !ItemMeetsConstraints(row, stores.Keys) {
        return Failure(IntegrityViolation);
      }
      PatchedItemKeepsIdentity(items[id], b);
      assert StoreRowValid(stores[row.storeId.value], row.storeId.value, nextStoreId, clock);
      ItemOutEchoesRow(row, stores[row.storeId.value]);
      items := items[id := row];
      r := ItemOut(row, stores[row.storeId.value]);
    }

    /** DELETE /items/{id} */
    method DeleteItem(id: int) returns (r: Result<Message, ApiError>)
      requires Valid()
      modifies this
      ensures Valid()
      ensures id !in old(items) ==> r == Failure(NotFound(ItemNotFound)) && unchanged(this)
      ensures id in old(items) ==>
        && r == Success(Message(ItemDeleted))
        && items == old(items) - {id}
        && stores == old(stores)
        && nextStoreId == old(nextStoreId) && nextItemId == old(nextItemId) && clock == old(clock)
    {
      if id !in items {
        return Failure(NotFound(ItemNotFound));
      }
      items := items - {id};
      r := Success(Message(ItemDeleted));
    }
  }

  /** Deleting the same item twice: the second request is a 404, whatever the first did. */
  method DeleteItemTwice(db: ShoppingDb, id: int) returns (first: Result<Message, ApiError>, second: Result<Message, ApiError>)
    requires db.Valid()
    modifies db
    ensures db.Valid()
    ensures first.Success? <==> id in old(db.items)
    ensures second == Failure(NotFound(ItemNotFound))
    ensures db.items == old(db.items) - {id}
  {
    first := db.DeleteItem(id);
    second := db.DeleteItem(id);
  }

  /** Deleting the same store twice: the second request is a 404, and none of its items are left. */
  method DeleteStoreTwice(db: ShoppingDb, id: int) returns (first: Result<Message, ApiError>, second: Result<Message, ApiError>)
    requires db.Valid()
    modifies db
    ensures db.Valid()
    ensures first.Success? <==> id in old(db.stores)
    ensures second == Failure(NotFound(StoreNotFound))
    ensures id !in db.stores && forall k :: k in db.items ==> db.items[k].storeId != Some(id)
  {
    first := db.DeleteStore(id);
    second := db.DeleteStore(id);
  }
}
