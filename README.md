# Shopping list: a verified model of its core

The app keeps a shopping list grouped by store. A FastAPI backend stores
`Store` and `ShoppingItem` rows in PostgreSQL and serves `/stores` and
`/items` (list, create, partial update, delete, with deleting a store
cascading to its items). A React Native client shows the list with rows that
can be swiped right (check off) or left (delete), an "Add Item" sheet, and a
floating button that switches back to a sandbox app.

This project models that core in Dafny and proves what each part promises:

- `wrappers.dfy`: `Option` and `Result`.
- `text.dfy`: trimming, with the two white-space sets in play. Pydantic's
  `str_strip_whitespace` trims Unicode `White_Space`. JavaScript's `trim`
  uses the ECMAScript set, which drops U+0085 and adds U+FEFF.
- `counting.dfy`: how many times a value occurs in a sequence (quotes in a
  statement, callbacks in a swipe trace).
- `models.dfy`: the two tables' rows, their column defaults, and their
  NOT NULL and foreign-key constraints.
- `schemas.dfy`: the request bodies and their validation.
  - A field is unset, sent as null, or sent with a value.
  - The schema defaults; the sent keys of an update (`exclude_unset`); stripping.
  - The response schemas, which refuse a row whose required fields are null.
- `listing.dfy`: enumerating a table's ids newest first, and ordering
  stores by name (insertion sort, proved sorted and a permutation).
- `routers.dfy`: the class `ShoppingDb` with the two id-keyed tables,
  their id sequences and a logical clock.
  - Each handler is a method that either commits or leaves the tables as they
    were; a refused item create still draws an id from the item sequence.
  - Its invariant says ids are the keys they are stored under, every row meets
    its constraints (so every item's store exists), stored strings are
    stripped, and later items have later `created_at`.
  - The update handlers run the `setattr` loop over the sent keys, proved equal
    to a field-by-field patch.
- `database.dfy`: the `SCHEMA_NAME` default, the identifier check and the
  `SET search_path TO "<name>"` statement.
  - The check is proved equal to the semantics of `re.match` with `$`,
    including its acceptance of one trailing newline.
  - The statement for an accepted name holds exactly two quotes and reads
    back as the name.
- `swipe.dfy`: the claim predicate, the three-way release decision, and a
  row whose offset and event trace record each animation (as one step) and
  each callback. A gesture taken over by the list's scroll view leaves the
  row where the last move put it, since the row sets no termination handler.
- `add_item_form.dfy`: the sheet's form state and its handlers; a submit
  either changes nothing or sends one trimmed payload, resets the form and
  closes the sheet.
- `floating_button.dfy`: `getPositionStyle`, and the loading state of a
  press.

How the model reads the code where the written description differs:

- A store create that sends `color` or `icon` as null stores the column
  default. The ORM leaves a None attribute out of the INSERT.
- An update that sends `name` or `store_id` as null, or a `store_id` that
  names no store, fails at commit with a server error and changes nothing.
- An item update that sends `quantity` or `is_checked` as null commits, and
  then the response fails validation.
- A create that fails the foreign key still consumes an item id.
- The sheet never submits store id 0, because 0 is falsy in JavaScript.

## Model

| member | source | states |
|---|---|---|
| Text.TrimStartSpec | backend/app/schemas.py:9 | stripping the front removes exactly a run of leading white space and stops at the first other character |
| Text.TrimEndSpec | backend/app/schemas.py:9 | stripping the back removes exactly a run of trailing white space and stops at the last other character |
| Text.TrimIsTrimmed | backend/app/schemas.py:9 | a stripped string has no white space at either end |
| Text.TrimIdempotent | backend/app/schemas.py:9 | stripping a stripped string changes nothing |
| Text.TrimEmptyIffAllSpace | mobile/components/AddItemModal.tsx:31 | a string trims to empty exactly when every character is white space |
| Schemas.StripOptionStripped | backend/app/schemas.py:9 | a stripped optional string is stripped, None stays None |
| Schemas.StrippedOptionFixed | backend/app/schemas.py:9 | stripping an already stripped value returns it unchanged |
| Schemas.SchemaDefaultsStripped | backend/app/schemas.py:20-23 | the schema defaults "#6366f1", "🏪" and "1" carry no surrounding white space |
| Schemas.ValidStoreCreateStripped | backend/app/schemas.py:20-23 | a validated store create holds only stripped strings, defaults included |
| Schemas.ValidItemCreateStripped | backend/app/schemas.py:41-45 | a validated item create has a stripped name and quantity |
| Schemas.StoreOutEchoesRow | backend/app/schemas.py:36-37 | a store row with a name serializes to exactly its own id, name, color, icon and creation time |
| Schemas.ValidateStoreCreate | backend/app/schemas.py:20-27 | a store body is accepted exactly when it has a name, otherwise 422; a color or icon sent as null stays null, and an unset one takes the schema default |
| Schemas.ValidateItemCreate | backend/app/schemas.py:41-49 | an item body is accepted exactly when it has a name and a store id and its quantity is not null, otherwise 422; the store id is kept, the date is present exactly when sent, and an unset quantity is "1" |
| Schemas.StoreUpdateData | backend/app/routers/stores.py:34 | the dump holds exactly the keys the client sent, each once, in the schema's declaration order |
| Schemas.ItemUpdateData | backend/app/routers/items.py:36 | the dump holds exactly the keys the client sent, each once, in the schema's declaration order |
| Schemas.StoreOut | backend/app/schemas.py:36-37 | a store row serializes exactly when its name is set, otherwise the response is invalid; the response keeps the row's id and creation time |
| Schemas.ItemOut | backend/app/schemas.py:60-63 | an item row serializes exactly when name, quantity, store id and is_checked are set and its store has a name; the response keeps the row's id, creation time and store id |
| Schemas.ItemOutEchoesRow | backend/app/schemas.py:60-63 | an item row serializes exactly when quantity and is_checked are set, and then echoes the row with its full store embedded |
| Listing.IdsBelow | backend/app/routers/items.py:14 | the ids of a table below a bound, each once, in strictly decreasing order |
| Listing.IdsBelowCoversKeys | backend/app/routers/items.py:14 | when every id is below the bound, the enumeration lists every id of the table, once each |
| Listing.NameLeTotal | backend/app/routers/stores.py:14 | any two names are ordered one way or the other |
| Listing.InsertByName | backend/app/routers/stores.py:14 | inserting into a name-sorted list keeps it sorted and adds exactly that store |
| Listing.SortByName | backend/app/routers/stores.py:14 | the result is ordered by name and is a permutation of the input |
| Routers.InsertedStore | backend/app/routers/stores.py:20 | the new row has the given id and time and a name; its color and icon are never null: a sent value is kept, a missing one is the column default |
| Routers.InsertedItem | backend/app/routers/items.py:20 | the new row has the given id and time, a name, the given store and a quantity, and is unchecked by the column default |
| Routers.CreatedStoreFields | backend/app/models.py:25-26 | a created store has the stripped name, and the sent color and icon or else "#6366f1" and "🏪" |
| Routers.ColumnDefaultsStripped | backend/app/models.py:25-26 | the column defaults carry no surrounding white space |
| Routers.CreatedItemFields | backend/app/models.py:40-43 | a created item has quantity "1" unless sent, is unchecked, and has no date unless one was sent |
| Routers.SetStoreAttrsAppend | backend/app/routers/stores.py:35-36 | writing two runs of keys is writing the first run, then the second |
| Routers.SetItemAttrsAppend | backend/app/routers/items.py:37-38 | writing two runs of keys is writing the first run, then the second |
| Routers.StoreUpdateMeaning | backend/app/routers/stores.py:34-36 | writing the sent keys in order is the field-by-field patch: sent keys written (null as null), the others kept |
| Routers.ItemUpdateMeaning | backend/app/routers/items.py:36-38 | writing the sent keys in order is the field-by-field patch; a null `need_by_date` clears it, an unset one keeps it |
| Routers.ApplyStoreUpdate | backend/app/routers/stores.py:35-36 | the `setattr` loop produces the patched store |
| Routers.ApplyItemUpdate | backend/app/routers/items.py:37-38 | the `setattr` loop produces the patched item |
| Routers.AssignedTextStripped | backend/app/schemas.py:30-33 | a patched string column stays stripped |
| Routers.PatchedStoreKeepsIdentity | backend/app/schemas.py:30-33 | a store update never changes the id or the creation time, and keeps stored strings stripped |
| Routers.PatchedItemKeepsIdentity | backend/app/schemas.py:52-57 | an item update never changes the id or the creation time, and keeps stored strings stripped |
| Routers.WithoutStore | backend/app/models.py:31 | the cascade keeps exactly the items of other stores, unchanged |
| Routers.StoreResponses | backend/app/routers/stores.py:14 | one serialized store per id, in order |
| Routers.StoreResponsesMembers | backend/app/routers/stores.py:14 | the serialized stores are exactly the stores of the table |
| Routers.ItemResponses | backend/app/routers/items.py:14 | the list serializes exactly when every listed row does, and then holds each row's response in order |
| Routers.ItemResponsesNewestFirst | backend/app/routers/items.py:14 | the listed items are in strictly decreasing creation time and are exactly the items of the table |
| Routers.ConsistentAfterStoreInsert | backend/app/routers/stores.py:18-24 | inserting a valid store under the next id keeps the table invariant |
| Routers.ConsistentAfterItemInsert | backend/app/routers/items.py:18-26 | inserting a valid item under the next id at the current time keeps the table invariant |
| Routers.ShoppingDb.constructor | backend/app/models.py:19-45 | both tables are empty, both id sequences start at 1, and the invariant holds |
| Routers.ShoppingDb.GetStores | backend/app/routers/stores.py:11-14 | every store once, as its response, ordered by name |
| Routers.ShoppingDb.GetItems | backend/app/routers/items.py:11-14 | every item once with its store, newest first; fails exactly when some row has a null quantity or is_checked |
| Routers.ItemsListable | backend/app/schemas.py:60-63 | under the invariant every item has its store, and its response exists exactly when quantity and is_checked are set |
| Routers.ItemListing | backend/app/routers/items.py:11-14 | under the invariant the listing has one response per item, newest first, each the response of an item in the table, and fails exactly when some row has a null quantity or is_checked |
| Routers.ItemInsert | backend/app/routers/items.py:18-26 | a validated item for an existing store goes in under a fresh id, keeps the invariant, and is returned with its fields and its store |
| Routers.ConsistentAfterIdDrawn | backend/app/routers/items.py:21-23 | a failed insert that used up the next id keeps the table invariant |
| Routers.ShoppingDb.CreateStore | backend/app/routers/stores.py:17-24 | an invalid body is 422 and changes nothing; otherwise exactly one store is added under a fresh id with the payload and defaults, and returned |
| Routers.ShoppingDb.UpdateStore | backend/app/routers/stores.py:27-40 | a missing id is 404 "Store not found" and changes nothing; a null name is refused; otherwise only that store is patched and returned with its id |
| Routers.ShoppingDb.DeleteStore | backend/app/routers/stores.py:43-52 | a missing id is 404; otherwise the store and exactly its items go, and the message is "Store deleted successfully" |
| Routers.ShoppingDb.CreateItem | backend/app/routers/items.py:17-26 | an invalid body is 422; an unknown store is refused with the id consumed; otherwise exactly one item is added, unchecked, and returned with its store |
| Routers.ShoppingDb.UpdateItem | backend/app/routers/items.py:29-43 | a missing id is 404 "Item not found" and changes nothing; only sent keys of that item are written; the response carries the same id |
| Routers.ShoppingDb.DeleteItem | backend/app/routers/items.py:46-55 | a missing id is 404 and changes nothing; otherwise exactly that item goes and the message is "Item deleted successfully" |
| Routers.DeleteItemTwice | backend/app/routers/items.py:49-51 | a second delete of the same item is a 404 |
| Routers.DeleteStoreTwice | backend/app/routers/stores.py:46-48 | a second delete of the same store is a 404, and no item of that store remains |
| Database.SchemaNameSetting | backend/app/database.py:12 | an environment value is used as given; when unset the schema is "public" |
| Database.SchemaNameMatchesPattern | backend/app/database.py:19 | the identifier check (optionally with one final newline) accepts exactly what `re.match` with the pattern accepts |
| Database.ValidateSchemaName | backend/app/database.py:19-23 | a name is kept exactly when the pattern matches; otherwise the ValueError message names it |
| Database.AcceptedNameShape | backend/app/database.py:19 | an accepted name starts with a-z or _, continues with a-z, 0-9 or _, is at most 63 characters besides one final newline |
| Database.TrailingNewlineAccepted | backend/app/database.py:19 | an identifier is accepted, so is it followed by one newline, but not by two |
| Database.DefaultSchemaAccepted | backend/app/database.py:12 | the default "public" passes the check |
| Database.SomeNamesRefused | backend/app/database.py:19-23 | the empty name, an upper-case start and 64 identifier characters raise |
| Database.SearchPathStatement | backend/app/database.py:40 | the statement is the command, a quote, the name and a closing quote |
| Database.AcceptedNameHasNoQuote | backend/app/database.py:39-40 | an accepted name contains no double quote |
| Database.AcceptedStatementHasTwoQuotes | backend/app/database.py:40 | the statement for an accepted name holds exactly two double quotes |
| Database.ParseSearchPath | backend/app/database.py:40 | a statement read back gives a name whose statement is that statement |
| Database.SearchPathRoundTrip | backend/app/database.py:40 | the statement for an accepted name reads back as exactly that name |
| Database.ConnectStatement | backend/app/database.py:12-40 | start-up yields a statement exactly when the configured name matches, and it reads back as that name |
| Database.DefaultConnectStatement | backend/app/database.py:12 | with no setting the connection runs `SET search_path TO "public"` |
| Swipe.ShouldClaimMove | mobile/components/SwipeableItem.tsx:28-31 | a move is claimed exactly in the two horizontal cones beyond 10 points |
| Swipe.VerticalDragNotClaimed | mobile/components/SwipeableItem.tsx:28-31 | a drag with abs(dy) >= abs(dx), or abs(dx) <= 10, is never claimed |
| Swipe.ClassifyRelease | mobile/components/SwipeableItem.tsx:33-60 | commit right exactly past +100 with a right callback, commit left exactly past -100 with a left callback, otherwise snap back |
| Swipe.ThresholdIsStrict | mobile/components/SwipeableItem.tsx:34-44 | a release at exactly 100 or -100, or past a side with no callback, snaps back |
| Swipe.ReleaseEvents | mobile/components/SwipeableItem.tsx:34-59 | every release ends at offset 0, and no event moves y |
| Swipe.ReleaseFiresOnce | mobile/components/SwipeableItem.tsx:35-53 | a commit fires its own callback exactly once, after reaching the edge, and the other never; a snap-back fires nothing |
| Swipe.SwipeableItem.constructor | mobile/components/SwipeableItem.tsx:23 | the row starts at offset (0, 0), not holding the gesture, with an empty trace and the callbacks it was given |
| Swipe.SwipeableItem.Move | mobile/components/SwipeableItem.tsx:28-32 | a row becomes claimed by a qualifying move and then tracks dx in x only; a row that stays unclaimed does not move |
| Swipe.SwipeableItem.Release | mobile/components/SwipeableItem.tsx:33-60 | the trace grows by the release's events and each callback count by one exactly on its commit; a claimed row ends at rest, an unclaimed one is not moved |
| Swipe.SwipeableItem.Terminate | mobile/components/SwipeableItem.tsx:27-62 | when another responder takes the gesture the row lets go with no animation: the offset stays where it was and nothing fires |
| Swipe.TakenOverDragLeavesRowDisplaced | mobile/components/SwipeableItem.tsx:27-62 | a claimed drag that is taken over leaves the row displaced at its last dx, with no callback fired |
| AddItemForm.SubmitRefusedMeaning | mobile/components/AddItemModal.tsx:31 | submit is refused exactly for an all-white-space name, no store, or store id 0 |
| AddItemForm.PayloadBody | mobile/components/AddItemModal.tsx:33-38 | the payload's fields are sent as values; an undefined date is not sent at all |
| AddItemForm.PayloadValidates | mobile/components/AddItemModal.tsx:33-38 | every payload passes the item schema, which keeps its store id and date |
| AddItemForm.NextLineNameStoredEmpty | mobile/components/AddItemModal.tsx:31-34 | a name of only U+0085 passes the form's guard yet is stripped to "" by the server |
| AddItemForm.AddItemModal.SubmitDisabled | mobile/components/AddItemModal.tsx:131-133 | the button is disabled exactly for an all-white-space name, no store, or store id 0 |
| AddItemForm.AddItemModal.constructor | mobile/components/AddItemModal.tsx:24-28 | the form starts as "", "1", no store, no date, picker hidden |
| AddItemForm.AddItemModal.SetName | mobile/components/AddItemModal.tsx:73 | only the name changes |
| AddItemForm.AddItemModal.SetQuantity | mobile/components/AddItemModal.tsx:81 | only the quantity changes |
| AddItemForm.AddItemModal.SelectStore | mobile/components/AddItemModal.tsx:93 | only the selected store changes, to that store's id |
| AddItemForm.AddItemModal.OpenDatePicker | mobile/components/AddItemModal.tsx:104 | only the picker opens |
| AddItemForm.AddItemModal.ClearDate | mobile/components/AddItemModal.tsx:121 | only the date is cleared |
| AddItemForm.AddItemModal.HandleDateChange | mobile/components/AddItemModal.tsx:48-53 | the picker stays shown only on iOS; a date replaces the old one, no date keeps it |
| AddItemForm.AddItemModal.Cancel | mobile/components/AddItemModal.tsx:127 | the sheet is closed and the form keeps what was typed |
| AddItemForm.AddItemModal.HandleSubmit | mobile/components/AddItemModal.tsx:30-46 | while the button is disabled nothing happens; otherwise exactly one trimmed payload is sent, the form is reset and the sheet closed once |
| AddItemForm.SubmittedPayloadsAccepted | mobile/components/AddItemModal.tsx:31-38 | every payload sent has a non-blank name and non-zero store id and passes the item schema |
| FloatingButton.GetPositionStyle | mobile/_system/AppifexFloatingButton.tsx:47-59 | exactly one vertical and one horizontal edge; bottom is offset + inset + 50, top, left and right are the offset |
| FloatingButton.MirrorSwapsSides | mobile/_system/AppifexFloatingButton.tsx:52-57 | the corner on the other side swaps left and right and keeps the height |
| FloatingButton.TopIgnoresInset | mobile/_system/AppifexFloatingButton.tsx:55-56 | a top button's placement does not depend on the inset |
| FloatingButton.DefaultPlacement | mobile/_system/AppifexFloatingButton.tsx:150 | by default the button sits 16 from the right and 66 plus the inset from the bottom |
| FloatingButton.AppifexFloatingButton.constructor | mobile/_system/AppifexFloatingButton.tsx:69 | the button starts not loading, and `onPress` has not been called |
| FloatingButton.AppifexFloatingButton.Press | mobile/_system/AppifexFloatingButton.tsx:77-126 | a loading button ignores presses; with onPress the press calls it and never loads; otherwise it loads and stays loading only on reload |

## Left out

- The network client `mobile/lib/api.ts`, the server entry point `backend/api/index.py`, the build configurations and the screens are not part of this model. The client's requests are represented by the backend handlers they reach.
- Engine, session and connection handling (`create_engine`, the listener's cursor, `get_db`) is database I/O. Only the statement text is modelled.
- `updated_at` is not modelled. `created_at` is a logical clock that each insert advances.
- Dates are abstract strings. `toISOString`, the platform picker and `minimumDate` are not modelled.
- Animations are atomic steps to their targets. Durations, easing and spring physics are not modelled, and neither are gestures that arrive while a row is animating.
- Requests run one at a time, each atomically. FastAPI runs these synchronous handlers in a thread pool, and `created_at` is the time the transaction started. Under concurrent requests a later id can get an earlier `created_at`. The invariant that later ids have later `created_at`, and the newest-first listing that relies on it, do not hold then.
- Ids and store ids are unbounded integers. The columns are 32-bit `Integer`. The database refuses a store id above 2^31-1 with an out-of-range error, not a foreign-key error. Overflow of the id sequences is not modelled either.
- Request bodies arrive typed: each field is unset, null, or a value of its declared type. Pydantic's 422 for a value of the wrong type, and its lax coercion (the string "5" accepted as store id 5), are not modelled.
- Gesture distances and insets are integers. The source has floating-point numbers.
- Routers.ShoppingDb.GetStores: `ORDER BY name` is plain lexicographic order on characters, not the database collation. Stores with equal names may be listed in either order.
- FloatingButton.AppifexFloatingButton.Press: the SecureStore reads and writes, the update fetch and the reload are asynchronous I/O. Their result is a parameter, and only its effect on the loading state is modelled. The web platform, where the button renders nothing, is not modelled.
- The white-space sets are the Unicode `White_Space` property and the ECMAScript set. No other Unicode processing is modelled.
- The presentational parts of every component (styles, colors, icons, size) are not modelled.
