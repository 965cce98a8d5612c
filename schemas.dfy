/**
 * The request and response schemas. A request body is validated into a schema
 * object (required keys, `= default` values, `str_strip_whitespace`); a
 * response is validated from the ORM row's attributes, stripping again.
 */
module Schemas {
  import opened Wrappers
  import opened Text
  import opened Models

  /** How a request is answered when it does not succeed. */
  datatype ApiError =
    | NotFound(detail: string)  // HTTPException with status 404
    | Unprocessable             // the body fails schema validation (422)
    | IntegrityViolation        // the commit breaks NOT NULL or FOREIGN KEY (500)
    | ResponseInvalid           // the committed row does not fit the response schema (500)

  datatype Message = Message(message: string)

  /** One key of a JSON request body: absent, sent as null, or sent with a value. */
  datatype Field<T> = Unset | Null | Value(value: T)

  /** Schema defaults (`= "..."` in the schema classes). */
  const SchemaStoreColor: string := "#6366f1"
  const SchemaStoreIcon: string := "\U{1F3EA}"
  const SchemaQuantity: string := "1"

  function Strip(s: string): string {
    Trim(s, UnicodeWhiteSpace)
  }

  predicate IsStripped(s: string) {
    IsTrimmed(s, UnicodeWhiteSpace)
  }

  predicate IsStrippedOption(o: Option<string>) {
    o.Some? ==> IsStripped(o.value)
  }

  function StripOption(o: Option<string>): Option<string> {
    match o
    case None => None
    case Some(s) => Some(Strip(s))
  }

  /** The value of a key that was sent: null is None. */
  function Sent<T>(f: Field<T>): Option<T> {
    match f
    case Value(v) => Some(v)
    case _ => None
  }

  /** An `Optional[...] = default` key: absent takes the default, null is None. */
  function OptionalKey<T>(f: Field<T>, default: Option<T>): Option<T> {
    if f.Unset? then default else Sent(f)
  }

  /**
   * An `Optional[str] = default` key. A value that was sent is stripped; the
   * default is used as it is written (defaults are not validated).
   */
  function OptionalText(f: Field<string>, default: string): Option<string> {
    match f
    case Unset => Some(default)
    case Null => None
    case Value(s) => Some(Strip(s))
  }

  datatype StoreCreateBody = StoreCreateBody(name: Field<string>, color: Field<string>, icon: Field<string>)

  datatype StoreUpdateBody = StoreUpdateBody(name: Field<string>, color: Field<string>, icon: Field<string>)

  datatype ItemCreateBody = ItemCreateBody(
    name: Field<string>, quantity: Field<string>, storeId: Field<int>, needByDate: Field<Date>)

  datatype ItemUpdateBody = ItemUpdateBody(
    name: Field<string>, quantity: Field<string>, storeId: Field<int>,
    needByDate: Field<Date>, isChecked: Field<bool>)

  /** `StoreCreate` after validation, as `model_dump()` returns it. */
  datatype StoreCreate = StoreCreate(name: string, color: Option<string>, icon: Option<string>)

  /** `ShoppingItemCreate` after validation; it has no `is_checked` key. */
  datatype ItemCreate = ItemCreate(name: string, quantity: string, storeId: int, needByDate: Option<Date>)

  /** `name: str` is required; `color` and `icon` are `Optional[str]` with defaults. */
  function ValidateStoreCreate(b: StoreCreateBody): (r: Result<StoreCreate, ApiError>)
    ensures r.Success? <==> b.name.Value?
    ensures r.Failure? ==> r.error == Unprocessable
    ensures r.Success? ==> (r.value.color.None? <==> b.color.Null?) && (r.value.icon.None? <==> b.icon.Null?)
    ensures r.Success? && b.color.Unset? ==> r.value.color == Some(SchemaStoreColor)
    ensures r.Success? && b.icon.Unset? ==> r.value.icon == Some(SchemaStoreIcon)
  {
    if !b.name.Value? then Failure(Unprocessable)
    else Success(StoreCreate(
      Strip(b.name.value),
      OptionalText(b.color, SchemaStoreColor),
      OptionalText(b.icon, SchemaStoreIcon)))
  }

  /** `name: str` and `store_id: int` are required; `quantity: str = "1"` may be absent but not null. */
  function ValidateItemCreate(b: ItemCreateBody): (r: Result<ItemCreate, ApiError>)
    ensures r.Success? <==> b.name.Value? && !b.quantity.Null? && b.storeId.Value?
    ensures r.Failure? ==> r.error == Unprocessable
    ensures r.Success? ==> r.value.storeId == b.storeId.value
    ensures r.Success? ==> (r.value.needByDate.Some? <==> b.needByDate.Value?)
    ensures r.Success? && b.quantity.Unset? ==> r.value.quantity == SchemaQuantity
  {
    if !b.name.Value? || b.quantity.Null? || !b.storeId.Value? then Failure(Unprocessable)
    else Success(ItemCreate(
      Strip(b.name.value),
      if b.quantity.Value? then Strip(b.quantity.value) else SchemaQuantity,
      b.storeId.value,
      OptionalKey(b.needByDate, None)))
  }

  /** One entry of `model_dump(exclude_unset=True)` of an update schema. */
  datatype StoreAttr = StoreName(name: Option<string>) | StoreColor(color: Option<string>) | StoreIcon(icon: Option<string>)

  datatype ItemAttr =
    | ItemName(name: Option<string>)
    | ItemQuantity(quantity: Option<string>)
    | ItemStoreId(storeId: Option<int>)
    | ItemNeedByDate(needByDate: Option<Date>)
    | ItemIsChecked(isChecked: Option<bool>)

  /** Where each key stands in the schema's declaration order. */
  function StoreKeyIndex(a: StoreAttr): nat {
    match a
    case StoreName(_) => 0
    case StoreColor(_) => 1
    case StoreIcon(_) => 2
  }

  function ItemKeyIndex(a: ItemAttr): nat {
    match a
    case ItemName(_) => 0
    case ItemQuantity(_) => 1
    case ItemStoreId(_) => 2
    case ItemNeedByDate(_) => 3
    case ItemIsChecked(_) => 4
  }

  /** Two key-ordered runs, all of the first's keys below the second's, make one key-ordered run. */
  lemma KeyOrderedConcat<T>(x: seq<T>, y: seq<T>, key: T -> nat)
    requires forall i, j :: 0 <= i < j < |x| ==> key(x[i]) < key(x[j])
    requires forall i, j :: 0 <= i < j < |y| ==> key(y[i]) < key(y[j])
    requires forall a, b :: a in x && b in y ==> key(a) < key(b)
    ensures forall i, j :: 0 <= i < j < |x + y| ==> key((x + y)[i]) < key((x + y)[j])
  {
    forall i, j | 0 <= i < j < |x + y|
      ensures key((x + y)[i]) < key((x + y)[j])
    {
      if j < |x| {
      } else if i >= |x| {
        assert (x + y)[i] == y[i - |x|] && (x + y)[j] == y[j - |x|];
      } else {
        assert (x + y)[i] == x[i] && (x + y)[j] == y[j - |x|];
        assert x[i] in x && y[j - |x|] in y;
      }
    }
  }

  /** One optional entry per key, concatenated in declaration order, is ordered by key. */
  lemma StoreDataOrdered(n: seq<StoreAttr>, c: seq<StoreAttr>, i: seq<StoreAttr>)
    requires |n| <= 1 && |c| <= 1 && |i| <= 1
    requires forall a :: a in n ==> a.StoreName?
    requires forall a :: a in c ==> a.StoreColor?
    requires forall a :: a in i ==> a.StoreIcon?
    ensures forall x, y :: 0 <= x < y < |n + c + i| ==> StoreKeyIndex((n + c + i)[x]) < StoreKeyIndex((n + c + i)[y])
  {
    KeyOrderedConcat(n, c, StoreKeyIndex);
    assert forall a :: a in n + c ==> StoreKeyIndex(a) <= 1;
    KeyOrderedConcat(n + c, i, StoreKeyIndex);
  }

  /** ... and holds a key exactly when that key's entry is present. */
  lemma StoreDataKeys(n: seq<StoreAttr>, c: seq<StoreAttr>, i: seq<StoreAttr>)
    requires forall a :: a in n ==> a.StoreName?
    requires forall a :: a in c ==> a.StoreColor?
    requires forall a :: a in i ==> a.StoreIcon?
    ensures (exists a :: a in n + c + i && a.StoreName?) <==> n != []
    ensures (exists a :: a in n + c + i && a.StoreColor?) <==> c != []
    ensures (exists a :: a in n + c + i && a.StoreIcon?) <==> i != []
  {
    var r := n + c + i;
    assert n != [] ==> n[0] in r;
    assert c != [] ==> c[0] in r;
    assert i != [] ==> i[0] in r;
  }

  lemma ItemDataOrdered(n: seq<ItemAttr>, q: seq<ItemAttr>, s: seq<ItemAttr>, d: seq<ItemAttr>, c: seq<ItemAttr>)
    requires |n| <= 1 && |q| <= 1 && |s| <= 1 && |d| <= 1 && |c| <= 1
    requires forall a :: a in n ==> a.ItemName?
    requires forall a :: a in q ==> a.ItemQuantity?
    requires forall a :: a in s ==> a.ItemStoreId?
    requires forall a :: a in d ==> a.ItemNeedByDate?
    requires forall a :: a in c ==> a.ItemIsChecked?
    ensures var r := n + q + s + d + c;
      forall x, y :: 0 <= x < y < |r| ==> ItemKeyIndex(r[x]) < ItemKeyIndex(r[y])
  {
    KeyOrderedConcat(n, q, ItemKeyIndex);
    assert forall a :: a in n + q ==> ItemKeyIndex(a) <= 1;
    KeyOrderedConcat(n + q, s, ItemKeyIndex);
    assert forall a :: a in n + q + s ==> ItemKeyIndex(a) <= 2;
    KeyOrderedConcat(n + q + s, d, ItemKeyIndex);
    assert forall a :: a in n + q + s + d ==> ItemKeyIndex(a) <= 3;
    KeyOrderedConcat(n + q + s + d, c, ItemKeyIndex);
  }

  lemma ItemDataKeys(n: seq<ItemAttr>, q: seq<ItemAttr>, s: seq<ItemAttr>, d: seq<ItemAttr>, c: seq<ItemAttr>)
    requires forall a :: a in n ==> a.ItemName?
    requires forall a :: a in q ==> a.ItemQuantity?
    requires forall a :: a in s ==> a.ItemStoreId?
    requires forall a :: a in d ==> a.ItemNeedByDate?
    requires forall a :: a in c ==> a.ItemIsChecked?
    ensures var r := n + q + s + d + c;
      && ((exists a :: a in r && a.ItemName?) <==> n != [])
      && ((exists a :: a in r && a.ItemQuantity?) <==> q != [])
      && ((exists a :: a in r && a.ItemStoreId?) <==> s != [])
      && ((exists a :: a in r && a.ItemNeedByDate?) <==> d != [])
      && ((exists a :: a in r && a.ItemIsChecked?) <==> c != [])
  {
    var r := n + q + s + d + c;
    assert n != [] ==> n[0] in r;
    assert q != [] ==> q[0] in r;
    assert s != [] ==> s[0] in r;
    assert d != [] ==> d[0] in r;
    assert c != [] ==> c[0] in r;
  }

  /** The keys the client sent, each once, in declaration order, with stripped strings. */
  function StoreUpdateData(b: StoreUpdateBody): (r: seq<StoreAttr>)
    ensures forall i, j :: 0 <= i < j < |r| ==> StoreKeyIndex(r[i]) < StoreKeyIndex(r[j])
    ensures (exists a :: a in r && a.StoreName?) <==> !b.name.Unset?
    ensures (exists a :: a in r && a.StoreColor?) <==> !b.color.Unset?
    ensures (exists a :: a in r && a.StoreIcon?) <==> !b.icon.Unset?
  {
    var n := if b.name.Unset? then [] else [StoreName(StripOption(Sent(b.name)))];
    var c := if b.color.Unset? then [] else [StoreColor(StripOption(Sent(b.color)))];
    var i := if b.icon.Unset? then [] else [StoreIcon(StripOption(Sent(b.icon)))];
    StoreDataOrdered(n, c, i);
    StoreDataKeys(n, c, i);
    n + c + i
  }

  function ItemUpdateData(b: ItemUpdateBody): (r: seq<ItemAttr>)
    ensures forall i, j :: 0 <= i < j < |r| ==> ItemKeyIndex(r[i]) < ItemKeyIndex(r[j])
    ensures (exists a :: a in r && a.ItemName?) <==> !b.name.Unset?
    ensures (exists a :: a in r && a.ItemQuantity?) <==> !b.quantity.Unset?
    ensures (exists a :: a in r && a.ItemStoreId?) <==> !b.storeId.Unset?
    ensures (exists a :: a in r && a.ItemNeedByDate?) <==> !b.needByDate.Unset?
    ensures (exists a :: a in r && a.ItemIsChecked?) <==> !b.isChecked.Unset?
  {
    var n := if b.name.Unset? then [] else [ItemName(StripOption(Sent(b.name)))];
    var q := if b.quantity.Unset? then [] else [ItemQuantity(StripOption(Sent(b.quantity)))];
    var s := if b.storeId.Unset? then [] else [ItemStoreId(Sent(b.storeId))];
    var d := if b.needByDate.Unset? then [] else [ItemNeedByDate(Sent(b.needByDate))];
    var c := if b.isChecked.Unset? then [] else [ItemIsChecked(Sent(b.isChecked))];
    ItemDataOrdered(n, q, s, d, c);
    ItemDataKeys(n, q, s, d, c);
    var r := n + q + s + d + c;
    r
  }

  datatype StoreResponse = StoreResponse(
    id: int, name: string, color: Option<string>, icon: Option<string>, createdAt: nat)

  /** An item as returned, with the full record of its store embedded. */
  datatype ItemResponse = ItemResponse(
    id: int, name: string, quantity: string, storeId: int, needByDate: Option<Date>,
    isChecked: bool, createdAt: nat, store: StoreResponse)

  /** The `Store` response schema read from a row: `name: str` must not be None. */
  function StoreOut(row: StoreRow): (r: Result<StoreResponse, ApiError>)
    ensures r.Success? <==> row.name.Some?
    ensures r.Failure? ==> r.error == ResponseInvalid
    ensures r.Success? ==> r.value.id == row.id && r.value.createdAt == row.createdAt
  {
    if row.name.None? then Failure(ResponseInvalid)
    else Success(StoreResponse(row.id, Strip(row.name.value), StripOption(row.color), StripOption(row.icon), row.createdAt))
  }

  /** The `ShoppingItem` response schema: `quantity: str` and `is_checked: bool` must not be None either. */
  function ItemOut(row: ItemRow, store: StoreRow): (r: Result<ItemResponse, ApiError>)
    ensures r.Success? <==> row.name.Some? && row.quantity.Some? && row.storeId.Some? && row.isChecked.Some? && store.name.Some?
    ensures r.Failure? ==> r.error == ResponseInvalid
    ensures r.Success? ==> r.value.id == row.id && r.value.createdAt == row.createdAt && r.value.store.id == store.id
  {
    if row.name.None? || row.quantity.None? || row.storeId.None? || row.isChecked.None? then Failure(ResponseInvalid)
    else
      match StoreOut(store)
      case Failure(e) => Failure(e)
      case Success(s) =>
        Success(ItemResponse(row.id, Strip(row.name.value), Strip(row.quantity.value), row.storeId.value,
                             row.needByDate, row.isChecked.value, row.createdAt, s))
  }

  /** Every string the store row holds is already stripped. */
  predicate StoreRowStripped(row: StoreRow) {
    IsStrippedOption(row.name) && IsStrippedOption(row.color) && IsStrippedOption(row.icon)
  }

  predicate ItemRowStripped(row: ItemRow) {
    IsStrippedOption(row.name) && IsStrippedOption(row.quantity)
  }

  lemma StripOptionStripped(o: Option<string>)
    ensures IsStrippedOption(StripOption(o))
  {
    if o.Some? {
      TrimIsTrimmed(o.value, UnicodeWhiteSpace);
    }
  }

  lemma StrippedOptionFixed(o: Option<string>)
    requires IsStrippedOption(o)
    ensures StripOption(o) == o
  {
    if o.Some? {
      TrimmedIsFixpoint(o.value, UnicodeWhiteSpace);
    }
  }

  /** The schema defaults carry no surrounding white space. */
  lemma SchemaDefaultsStripped()
    ensures IsStripped(SchemaStoreColor) && IsStripped(SchemaStoreIcon) && IsStripped(SchemaQuantity)
  {
    assert SchemaStoreColor[0] == '#' && SchemaStoreColor[|SchemaStoreColor| - 1] == '1';
    assert |SchemaStoreIcon| == 1 && SchemaStoreIcon[0] == '\U{1F3EA}';
    assert |SchemaQuantity| == 1 && SchemaQuantity[0] == '1';
  }

  /** A validated store create holds only stripped strings, defaults included. */
  lemma ValidStoreCreateStripped(b: StoreCreateBody)
    requires ValidateStoreCreate(b).Success?
    ensures var c := ValidateStoreCreate(b).value;
      IsStripped(c.name) && IsStrippedOption(c.color) && IsStrippedOption(c.icon)
  {
    SchemaDefaultsStripped();
    TrimIsTrimmed(b.name.value, UnicodeWhiteSpace);
    if b.color.Value? {
      TrimIsTrimmed(b.color.value, UnicodeWhiteSpace);
    }
    if b.icon.Value? {
      TrimIsTrimmed(b.icon.value, UnicodeWhiteSpace);
    }
  }

  lemma ValidItemCreateStripped(b: ItemCreateBody)
    requires ValidateItemCreate(b).Success?
    ensures var c := ValidateItemCreate(b).value;
      IsStripped(c.name) && IsStripped(c.quantity)
  {
    SchemaDefaultsStripped();
    TrimIsTrimmed(b.name.value, UnicodeWhiteSpace);
    if b.quantity.Value? {
      TrimIsTrimmed(b.quantity.value, UnicodeWhiteSpace);
    }
  }

  /**
   * The response echoes a stored store row exactly: stripping it again on the
   * way out changes nothing, because it was stripped on the way in.
   */
  lemma StoreOutEchoesRow(row: StoreRow)
    requires row.name.Some? && StoreRowStripped(row)
    ensures StoreOut(row) == Success(StoreResponse(row.id, row.name.value, row.color, row.icon, row.createdAt))
  {
    StrippedOptionFixed(row.name);
    StrippedOptionFixed(row.color);
    StrippedOptionFixed(row.icon);
  }

  /**
   * An item row is returned exactly when its non-optional response fields are
   * set, and then the response echoes the row and its store.
   */
  lemma ItemOutEchoesRow(row: ItemRow, store: StoreRow)
    requires row.name.Some? && row.storeId.Some? && ItemRowStripped(row)
    requires store.name.Some? && StoreRowStripped(store)
    ensures ItemOut(row, store).Success? <==> row.quantity.Some? && row.isChecked.Some?
    ensures ItemOut(row, store).Success? ==>
      ItemOut(row, store).value == ItemResponse(row.id, row.name.value, row.quantity.value, row.storeId.value,
        row.needByDate, row.isChecked.value, row.createdAt,
        StoreResponse(store.id, store.name.value, store.color, store.icon, store.createdAt))
  {
    StoreOutEchoesRow(store);
    StrippedOptionFixed(row.name);
    StrippedOptionFixed(row.quantity);
  }
}
