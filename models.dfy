/**
 * The two tables, `stores` and `shopping_items`. A row keeps every column the
 * ORM object can hold; a column the ORM may leave as Python `None` is an
 * `Option`. The NOT NULL and FOREIGN KEY constraints are predicates that the
 * database checks when a change is committed.
 */
module Models {
  import opened Wrappers

  /** A calendar date; its parsing and formatting are not part of this model. */
  type Date = string

  /** Column defaults (`default=` in the column definitions). */
  const DefaultStoreColor: string := "#6366f1"
  const DefaultStoreIcon: string := "\U{1F3EA}"
  const DefaultQuantity: string := "1"
  const DefaultIsChecked: bool := false

  /** `created_at` is the value of a logical clock at insertion. */
  datatype StoreRow = StoreRow(
    id: int,
    name: Option<string>,
    color: Option<string>,
    icon: Option<string>,
    createdAt: nat)

  datatype ItemRow = ItemRow(
    id: int,
    name: Option<string>,
    quantity: Option<string>,
    storeId: Option<int>,
    needByDate: Option<Date>,
    isChecked: Option<bool>,
    createdAt: nat)

  /** `name` is NOT NULL. */
  predicate StoreMeetsConstraints(row: StoreRow) {
    row.name.Some?
  }

  /** `name` and `store_id` are NOT NULL, and `store_id` references an existing store. */
  predicate ItemMeetsConstraints(row: ItemRow, storeIds: set<int>) {
    row.name.Some? && row.storeId.Some? && row.storeId.value in storeIds
  }
}
