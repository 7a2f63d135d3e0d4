# Restaurant orders and inventory tables

A model of the in-memory record tables of the RISTOWORD restaurant backend
(`backend/server.js`). The server keeps two lists, orders and inventory
items, each with an id counter that is computed once at boot. HTTP handlers
append records and change one field of a record in place, and every change
is mirrored to a JSON file.

- `values.dfy` (module `Values`): `Option`, the request-body field `Value`
  with JavaScript truthiness (`!table`, `!!paid`), `NumberOrZero` for
  `Number(x) || 0`, and `Reply`, the handler's answer with its HTTP status.
- `id_table.dfy` (module `IdTable`): the id column shared by both tables.
  It holds `Ids` (`records.map(r => r.id)`), `MaxId` (`Math.max`), `NextId`
  (the boot-time counter), `FirstIndexOf` and `Find` (`records.find(r =>
  r.id === id)`), and lemmas about appending a fresh id.
- `orders.dfy` (module `Orders`): class `OrderStore` with fields `orders`,
  `nextOrderId` and a ghost `persisted`, and the handlers `Create`,
  `SetStatus` and `SetPaid`.
- `inventory.dfy` (module `Inventory`): class `InventoryStore` with fields
  `items`, `nextInventoryId` and a ghost `persisted`, and the handlers
  `Create` and `Adjust`.
- `scenarios.dfy` (module `Scenarios`): client methods that run request
  sequences against fresh stores and prove their outcome.

Each store's invariant `Valid()` says that the counter equals what a boot
over the current list would compute (`NextId` of the ids). This holds at
boot; a create appends the counter's value, which is the new maximum; an
update never touches an id. So the counter always lies above every id, a
new record's id is above every earlier one, and a reboot from a fully saved
file hands out the same next id. Ids need not be distinct in a loaded file,
so distinctness is carried as `old(Unique) ==> Unique` on every handler.

The ghost `persisted` field is the list as last saved successfully. Each
mutating handler takes `writeOk`, the outcome of `saveJsonArray`. The server
swallows a failed write, so the reply is the same, and the model leaves
`persisted` at the last successful save.

New orders start with status `"in_preparazione"`. A status update stores
`status` exactly as sent, even when it is absent or not text, so
`Order.status` is a `Value`. Ids are not guaranteed positive or distinct,
because nothing checks a loaded file.

## Model

| member | source | states |
|---|---|---|
| IdTable.MaxId | backend/server.js:49 | the result is one of the ids and no id exceeds it |
| IdTable.NextId | backend/server.js:49-54 | 1 for an empty list, otherwise one more than an existing id, and strictly above every id |
| IdTable.FirstIndexOf | backend/server.js:116 | no position exactly when the key is absent; otherwise a position holding the key with no earlier occurrence |
| IdTable.Find | backend/server.js:113-116 | a non-numeric route id finds nothing; otherwise the first record with that id, or nothing when no record has it |
| IdTable.FindUnique | backend/server.js:116 | in a list without duplicate ids, the first match is the record at that id's position |
| IdTable.NextIdAfterAppend | backend/server.js:90 | appending a record with the counter's value moves the boot-time counter up by exactly one |
| IdTable.UniqueAfterAppend | backend/server.js:90 | appending an id above all existing ids keeps the ids distinct |
| Orders.OrderStore.constructor | backend/server.js:48-49 | at boot the list is the loaded one and the counter is NextId of its ids |
| Orders.OrderStore.Create | backend/server.js:82-103 | a missing table, covers or waiter gives 400 and changes nothing; otherwise one order is appended with the old counter as id, status "in_preparazione", paid false, an id above all earlier ids, and the counter goes up by one |
| Orders.OrderStore.SetStatus | backend/server.js:112-124 | an unknown id gives 404 and changes nothing; otherwise only the status of the first order with that id changes, and the reply is that order |
| Orders.OrderStore.SetPaid | backend/server.js:128-140 | an unknown id gives 404 and changes nothing; otherwise only `paid` of the first order with that id changes, to the truthiness of the input |
| Orders.OrderStore.Reboot | backend/server.js:48-49 | a restart serves the saved list; if every save succeeded it hands out the same next id |
| Inventory.InventoryStore.constructor | backend/server.js:51-54 | at boot the list is the loaded one and the counter is NextId of its ids |
| Inventory.InventoryStore.Create | backend/server.js:151-170 | a missing name or unit gives 400 and changes nothing; otherwise one item is appended with the old counter as id and the converted quantity, 0 when absent, and the counter goes up by one |
| Inventory.InventoryStore.Adjust | backend/server.js:174-188 | an unknown id gives 404 and changes nothing; otherwise only the quantity of the first item with that id changes, by the converted delta |
| Inventory.InventoryStore.Reboot | backend/server.js:51-54 | a restart serves the saved list; if every save succeeded it hands out the same next id |
| Scenarios.AdjustBackAndForth | backend/server.js:183-184 | adjusting by -d and then +d restores the inventory list and counter |
| Scenarios.FlourScenario | backend/server.js:151-188 | adding 10 kg of flour to an empty inventory gives item 1 with status 201; adjusting it by -3 gives quantity 7 with status 200 |
| Scenarios.OrderScenario | backend/server.js:82-140 | the first order on an empty list is order 1, "in_preparazione" and unpaid; marking it paid returns it with only `paid` set |
| Scenarios.RejectedOrderScenario | backend/server.js:85-90 | a refused request does not consume an id: the next complete order still gets id 1 |

## Left out

- Express setup, static pages, `/health` and `app.listen`: HTTP plumbing with no state.
- `GET /orders` and `GET /inventory`: they return the current list unchanged, which is the `orders` or `items` field itself.
- `ensureFile`, `loadJsonArray`, `saveJsonArray`: file I/O. Loading is the constructor's `loaded` argument. Saving is the ghost `persisted` field plus the `writeOk` parameter.
- A file that fails to parse loads as an empty list but keeps its bytes until the next save. The model sets `persisted` to the loaded list at boot and does not represent the unparsed bytes.
- `new Date().toISOString()`: the clock reading is the `createdAt` parameter.
- `Number(x)` conversion: quantities and deltas arrive as already-converted integers, `None` standing for NaN or an absent field. Fractions, floating-point rounding and ids beyond 2^53 are not modelled.
- `parseInt` of the route id: the id arrives parsed, `None` standing for NaN.
- Record fields loaded from a file are assumed well-typed: integer ids and integer quantities. So `item.quantity += d` on a text quantity, which concatenates in JavaScript, is not modelled.
- `Math.max(...ids)` failing on very long lists (argument-count limit) is not modelled.
- Objects are shared by reference in JavaScript, so the reply is the same object as the stored record. The model stores records as values and replies with a copy that equals the stored record right after the update.
- Orders.OrderStore.Reboot: treats a failed save as leaving the orders file as it was. In the source, `fs.writeFileSync` truncates the file before writing, so a failed write can leave it empty or partly written. The next boot then parses it to an empty list, restarts the counter at 1 and reuses ids. The model does not capture this.
- Inventory.InventoryStore.Reboot: the same limit as for orders. A failed save that truncates the inventory file makes the next boot start from an empty list and reuse ids.
- Stored body fields (`table`, `covers`, `area`, `waiter`, `status`, `name`, `unit`) are kept as a `Value`. A JSON object or array is `Composite` with no content, and numbers are integers. The source stores and returns these fields exactly as sent, nested content and fractions included.
