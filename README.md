# Item store of a FastAPI CRUD service, modelled in Dafny

The service manages one resource, an *item* with an id, a name, a
description and two timestamps, stored in one relational table. This project
models its core in three modules, one per source file:

- `Schemas` (`schemas.dfy`, app/schemas.py): the request and response record
  shapes. `ItemBase`/`ItemCreate` has both fields required. `ItemUpdate` has
  both fields optional, each `Some` exactly when the client set it. `Item` is
  the read view, whose `updatedAt` defaults to `None`. `Field` names the two
  fields that both payloads share. The module also holds `Dump` (the
  set-field dump `model_dump(exclude_unset=True)`) and `Merge`, the reference
  meaning of a partial update.
- `Crud` (`crud.dfy`, app/crud.py): the repository as a class `ItemStore`.
  The class holds a sequence `items` of rows in insertion order (which is
  ascending id order) and `nextId`, the next value of the table's id sequence.
  Its methods are `CreateItem`, `GetItem`, `GetItems`, `UpdateItem` and
  `DeleteItem`. They are specified by the pure table functions `Find`,
  `Page` and `Without`, and the lemmas about those functions state the
  properties that hold across several calls. The setattr loop of
  `update_item` is the method `SetFields`, proved equal to `Merge`. A `Fault`
  parameter of create and update says what fails inside the `try` block:
  - `CommitFault`: the commit fails. The rollback restores the state exactly
    and `PersistenceError` is returned.
  - `RefreshFault`: the commit succeeds and the following `db.refresh` fails.
    The change stays committed and `PersistenceError` is still returned.

  Delete has no refresh after its commit, so a `fails` flag covers it.
- `Dispatcher` (`dispatcher.dfy`, app/main.py): the five HTTP handlers. Each
  handler calls one store method and maps its outcome to a response with a
  small function: success, 404 "Item not found", or a server error when the
  repository's exception propagates.

`Scenarios` (`scenarios.dfy`) restates the repository's tests as client
code whose assertions follow from the contracts alone.

Inputs that the source takes from its environment are parameters in the
model. These are which database call fails (`fault`, `fails`) and the timestamps that the
table's column defaults produce at insertion (`createdAt`, `updatedAt`).

Three points about the code shape the model:
- `get_items` has no `ORDER BY`. The model returns rows in insertion order,
  which is what the tests observe.
- `update_item` does not assign `updated_at`. The model leaves both
  timestamps untouched.
- The repository re-raises the database's own exception. The model calls
  that outcome `PersistenceError`.

## Model

| member | source | states |
|---|---|---|
| `Schemas.Dump` | my_fastapi_app/app/schemas.py:15-17 | the set-field dump lists exactly the supplied fields, each at most once, name before description, and is empty exactly when no field was set |
| `Schemas.MergeUnsetIsIdentity` | my_fastapi_app/app/crud.py:29-31 | an update with no field set dumps nothing and leaves the item exactly as it was |
| `Schemas.MergeFields` | my_fastapi_app/app/crud.py:29-31 | a merge takes every supplied field, keeps every unset one, and never changes the id or the timestamps |
| `Schemas.MergeIdempotent` | my_fastapi_app/app/crud.py:29-31 | applying the same update twice gives the same item as applying it once |
| `Schemas.MergeFullUpdate` | my_fastapi_app/app/crud.py:29-31 | for every create payload, an update supplying both of its fields sets the item's name and description to exactly those values, whatever they were before, and changes nothing else |
| `Crud.IndexOf` | my_fastapi_app/app/crud.py:27 | the lookup `filter(id == item_id).first()` yields the first position holding the id, or nothing exactly when no row has it |
| `Crud.Find` | my_fastapi_app/app/crud.py:20-21 | the found row is in the table and carries the requested id; nothing is found exactly when no row carries it |
| `Crud.Page` | my_fastapi_app/app/crud.py:23-24 | offset/limit: at most `limit` rows, fewer only when the table runs out, the k-th being row `skip + k`; empty when `skip` is past the end |
| `Crud.Without` | my_fastapi_app/app/crud.py:47 | deleting rows by id never makes the table longer |
| `Crud.WithoutMembers` | my_fastapi_app/app/crud.py:47 | after deleting by id the table keeps exactly the rows with other ids |
| `Crud.WithoutAt` | my_fastapi_app/app/crud.py:44-48 | with unique ids, deleting the row found by id removes that one row and keeps the others in order |
| `Crud.SetFields` | my_fastapi_app/app/crud.py:29-31 | the loop assigning every dumped field with setattr yields exactly the reference merge of the update into the item |
| `Crud.ApplyDumpIsMerge` | my_fastapi_app/app/crud.py:29-31 | assigning the set fields one by one in dump order is the reference merge |
| `Crud.FindAppend` | my_fastapi_app/app/crud.py:7-14 | after appending a row every earlier lookup is unchanged, and the new row is found under its id when that id was absent |
| `Crud.FindAfterReplace` | my_fastapi_app/app/crud.py:28-36 | after overwriting a row with one of the same id, that id finds the new row and every other id finds what it found before |
| `Crud.FindWithout` | my_fastapi_app/app/crud.py:43-50 | after deleting an id it is not found, and every other id finds what it found before |
| `Crud.PageSplit` | my_fastapi_app/app/crud.py:23-24 | two consecutive pages together equal the page of their combined length |
| `Crud.ItemStore.constructor` | my_fastapi_app/tests/conftest.py:21-22 | an empty table whose id sequence is at any point `start >= 1`: `DELETE FROM items` empties the table but does not reset the sequence |
| `Crud.ItemStore.CreateItem` | my_fastapi_app/app/crud.py:7-18 | unless the commit fails, the new row with the supplied name and description and an id not present before is appended after all existing rows, which stay unchanged, and the sequence advances; it is returned when nothing fails; on a failed commit, rollback: state unchanged and the error returned; on a failed refresh after the commit, the row stays and the error is returned |
| `Crud.ItemStore.GetItem` | my_fastapi_app/app/crud.py:20-21 | returns the row with the id, or None exactly when no row has it; the store is not changed |
| `Crud.ItemStore.GetItems` | my_fastapi_app/app/crud.py:23-24 | returns the rows in creation order from position `skip`, at most `limit` of them, fewer only when the table runs out |
| `Crud.ItemStore.UpdateItem` | my_fastapi_app/app/crud.py:26-41 | an absent id gives None and no change; unless the commit fails, a present id gets only its supplied fields overwritten, keeps its id, and every other row is unchanged, and the merged item is returned when nothing fails; a failed commit rolls back and returns the error; a failed refresh after the commit keeps the update and returns the error |
| `Crud.ItemStore.DeleteItem` | my_fastapi_app/app/crud.py:43-55 | an absent id gives false and no change; a present id gives true and its row is removed, the others kept; a failed commit rolls back and returns the error |
| `Dispatcher.CreateResponse` | my_fastapi_app/app/main.py:26-28 | POST returns the created item unchanged; a propagated repository error becomes a server error |
| `Dispatcher.ListResponse` | my_fastapi_app/app/main.py:30-33 | GET list always succeeds with exactly the listed items |
| `Dispatcher.ReadResponse` | my_fastapi_app/app/main.py:35-40 | 404 "Item not found" exactly when the lookup found nothing, otherwise the item |
| `Dispatcher.UpdateResponse` | my_fastapi_app/app/main.py:42-47 | 404 exactly when the repository returned None, server error exactly when the repository raised, otherwise the updated item |
| `Dispatcher.DeleteResponse` | my_fastapi_app/app/main.py:49-54 | 404 exactly when the repository returned false, server error exactly when the repository raised, otherwise "Item deleted successfully" |
| `Dispatcher.HandleCreateItem` | my_fastapi_app/app/main.py:26-28 | a server error exactly when something fails; unless the commit fails, the store gains the new row and its sequence advances by one; when nothing fails the response carries that row; on a failed commit the store and its sequence are unchanged |
| `Dispatcher.HandleReadItems` | my_fastapi_app/app/main.py:30-33 | `skip` defaults to 0 and `limit` to 100; the response is exactly that page of the store |
| `Dispatcher.HandleReadItem` | my_fastapi_app/app/main.py:35-40 | 404 "Item not found" exactly when no row has the id; otherwise a stored row with that id |
| `Dispatcher.HandleUpdateItem` | my_fastapi_app/app/main.py:42-47 | 404 exactly when the id was absent, with no change; a server error exactly when it was present and something failed; unless the commit failed, the table keeps its length and order with the merged item in place of the row with that id and every other row unchanged, and a success carries the merged item; every other id finds what it found before and the id sequence is unchanged |
| `Dispatcher.HandleDeleteItem` | my_fastapi_app/app/main.py:49-54 | 404 exactly when the id was absent, with no change; a server error exactly when the id was present and the commit failed, with no change; otherwise the confirmation message, the table is the old one without that id's row, every other id finds what it found before, and the id sequence is unchanged, so a later create never reuses the id |
| `Scenarios.CreateAllThenList` | my_fastapi_app/tests/test_crud.py:133-149 | creating inputs in order in an empty table, whatever its id sequence has reached, and listing a page yields the same page of the inputs, in creation order; an empty table lists nothing |
| `Scenarios.CreateThenGet` | my_fastapi_app/tests/test_crud.py:27-39 | a created item carries the supplied fields under a fresh id and is then found under that id |

## Left out

- app/database.py is not part of this model: connections, database creation under autocommit, the table check, the `SELECT 1` probe and session lifetimes are all database I/O through third-party libraries (psycopg2, SQLAlchemy) whose code is outside this repository. The store's constructor stands for an empty, initialised table whose id sequence may have been used before.
- app/config.py is not part of this model: settings loading is done by a foreign library.
- Logging calls are not modelled; they have no effect on results.
- Timestamps: their values come from column defaults in app/models.py, which is not part of this model. `CreateItem` takes them as parameters and no operation changes them afterwards.
- Crud.ItemStore.UpdateItem: leaves `updatedAt` as it was; whether the column definition in app/models.py refreshes it on update is not modelled.
- An explicitly null field in an update body is not modelled. Supplied fields are always strings.
- Negative `skip` or `limit`: the source passes them to the database, which rejects them. The model takes both as natural numbers.
- SQL result order: `get_items` has no ordering clause. The model returns insertion order, which is also ascending id order.
- Id sequence values that a failed insert consumes: on a failed commit the model restores `nextId` too, so the next successful create reuses that id value. PostgreSQL would not reuse it. Ids of committed rows are still never reused.
- Failures of the read-only queries (`get_item`, `get_items`) and of the lookup before an update or delete are not modelled. The source has no rollback path for them.
- ORM object identity: the source returns live session objects, and the model returns item values.
- Request validation by the web framework (422 responses for missing or mistyped fields), routing, JSON serialisation and the response-model filtering are not modelled. Handlers receive already-typed payloads.
- The HTTP status of an exception propagated out of a handler is the framework's default, modelled as `ServerError` (500).
- Application start-up (`lifespan`, `init_db`) is not modelled, because it calls only database.py.
- Concurrent sessions and isolation-level races are not modelled. Each operation runs alone on the store.
