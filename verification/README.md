# Order service: a Dafny model

This project models the order-management core of a small HTTP service that
keeps a single `orders` table and exposes five routes over it (list, create,
read one, change status, delete). It covers three pieces:

- the `OrderStatus` enumeration and its storage encoding (`to_string` /
  `From<String>`), in `order_status.dfy`, module `OrderStatuses`;
- the `Order` entity and its persistence contract (`new`, `save`, `get_by_id`,
  `get_all`, `delete_by_id`) over an abstract table, in `orders.dfy`, module
  `Orders`;
- the error type `CustomError` with its HTTP response, in `error.dfy`, module
  `Errors`, and the five request handlers, in `handlers.dfy`, module `Handlers`.

`Order::delete_by_id` is called at src/main.rs:104 but is not defined in
src/orders.rs; `Orders.DeleteById` models it from that call site. It deletes
the row with that identifier and reports whether one was deleted.

`wrappers.dfy` holds `Option` and `Result`.

The table is a finite map from row identifier to `Row(status text, amount)`
together with the table's autoincrement counter `nextId`. The type `Table`
carries the invariant that every key lies in `[1, nextId)` and that the
counter stays within one past the `i64` range; every operation returns a
`Table`, so each one is proved to keep it. Identifiers are handed out as
SQLite's `AUTOINCREMENT` does: starting at 1, one more than the largest ever
used, never reused after a delete; once the counter would pass the `i64`
maximum an insert is rejected by the engine. This rests on the table being
declared `id INTEGER PRIMARY KEY AUTOINCREMENT` in the service's migration,
which is not part of this model: the `INSERT` in `save` does not choose the
identifier itself. Without `AUTOINCREMENT`, SQLite would give a new row the
largest current identifier plus one, so deleting the highest row would free
its identifier for reuse. `Handlers.DeletedIdNotReissued` holds only under
the declared schema.

Store failures are not hidden: every store operation takes a `fault` argument,
`None` when the engine runs the statement and `Some(e)` when it rejects it.
A rejected statement changes nothing. The PATCH handler sends two statements
(read, then write) and takes one such argument for each.

Handlers are functions from (table, decoded request inputs, faults) to
`Step(table after, Result<_, CustomError>)`; `RespondJson` and `RespondEmpty`
turn a handler's result into the HTTP status and body.

Two points of the code's behaviour worth calling out:

- `create_order` saves the body as decoded, so a body carrying an `id` takes
  the update branch of `save`: the row is
  overwritten if it exists, nothing is stored if it does not, and the request
  still answers 200 with the body (`Handlers.CreateOrder`,
  `Handlers.CreateWithUnknownIdStoresNothing`).
- The listing query has no ORDER BY. The model lists orders by ascending
  identifier, but its contracts promise only that each stored order appears
  once.

## Model

| member | source | states |
|---|---|---|
| OrderStatuses.Default | src/orders.rs:75-79 | the default status is the one stored as "pending" |
| OrderStatuses.ToText | src/orders.rs:81-91 | `Pending`, `InProgress`, `Complete` and `Canceled` are stored as exactly "pending", "in-progress", "complete" and "canceled", each text belonging to its status alone |
| OrderStatuses.FromText | src/orders.rs:93-102 | decoding re-encodes to the input text exactly when the text is one of the four; any other text decodes to the default status, and decoding never fails |
| OrderStatuses.RoundTrip | src/orders.rs:81-103 | decoding the encoding of a status gives the same status |
| OrderStatuses.ToTextInjective | src/orders.rs:83-88 | distinct statuses are stored as distinct texts |
| OrderStatuses.CanonicalRoundTrip | src/orders.rs:93-99 | each of the four texts is the encoding of the status it decodes to |
| OrderStatuses.UnknownTextIsPending | src/orders.rs:75-79 | a text outside the four decodes to `Pending`, the default, and does not re-encode to itself |
| Orders.DefaultOrder | src/orders.rs:9-14 | the derived default order has no identifier, amount 0 and the status stored as "pending" |
| Orders.New | src/orders.rs:17-22 | a new order has no identifier, the given amount and status `Pending` |
| Orders.ToRow | src/orders.rs:25-45 | the row `save` writes holds the order's amount and a canonical status text that decodes back to the order's status |
| Orders.Load | src/orders.rs:52-57 | reading a row gives an order with that identifier and amount; its status re-encodes to the stored text when that text is canonical and is `Pending` otherwise |
| Orders.Save | src/orders.rs:24-50 | without an identifier: exactly one new row under the counter's identifier, which no row had, holding the order's status text and amount, all other rows unchanged, the counter advanced by one, and the order now carries that identifier; with identifier n: the order is unchanged, only row n is overwritten, the counter stays put, and when row n is absent nothing changes and no error is reported; a rejected statement changes nothing and returns the engine's error |
| Orders.GetById | src/orders.rs:52-58 | a stored row yields `Some` of the decoded order; an absent row yields `None`, not an error |
| Orders.DeleteById | src/main.rs:104-107 | reports `true` exactly when the row existed; afterwards the row is absent and every other row is unchanged |
| Orders.Collect | src/orders.rs:60-64 | lists the stored orders in a range of identifiers, each once, in ascending identifier order, each equal to reading its row |
| Orders.AscendingIdsCount | src/orders.rs:60-64 | a list with strictly increasing identifiers has as many distinct identifiers as entries, so the listing has exactly one entry per row |
| Orders.GetAll | src/orders.rs:60-64 | the listing holds every stored order exactly once: its identifiers are the table's keys, its length the number of rows, each entry the decoded row |
| Orders.SaveThenGet | src/orders.rs:113-130 | after a save that inserts, or that overwrites an existing row, reading by the order's identifier returns the order unchanged |
| Orders.SaveChangeAmountResave | src/orders.rs:113-146 | saving a new order, changing its amount and saving again keeps its identifier, adds one row in all, and reads back the new amount with status `Pending` |
| Orders.DeleteThenGet | src/main.rs:400-403 | after a delete the identifier reads as absent |
| Orders.InsertAllGrows | src/orders.rs:161-167 | while the counter lasts, each insert of a new order adds exactly one row and advances the counter by one |
| Orders.GetAllAfterInserts | src/orders.rs:158-172 | listing after N inserts into the empty table returns N orders |
| Errors.FromEngine | src/error.rs:10-11 | every underlying error converts into `Other`, keeping it as the cause |
| Errors.StatusAndMessage | src/error.rs:17-20 | `RecordNotFound` answers 404 with "404 Record not found" and `Other` answers 500 with "Something went wrong!", each status and body belonging to exactly one variant |
| Errors.IntoResponse | src/error.rs:15-25 | `RecordNotFound` becomes a 404 response with body "404 Record not found"; `Other` becomes a 500 response with body "Something went wrong!" |
| Errors.RespondJson | src/main.rs:44-73 | a successful handler answers 200 with the value as JSON; a failed one answers with its error's response |
| Errors.RespondEmpty | src/main.rs:80-108 | a successful handler answers 200 with an empty body; a failed one answers with its error's response |
| Errors.OtherHidesCause | src/error.rs:19 | the 500 response is the same whatever underlying error `Other` wraps |
| Errors.ErrorBodyIsFixed | src/error.rs:17-22 | every error response body is one of the two fixed texts |
| Handlers.GetOrders | src/main.rs:44-50 | answers every stored order exactly once and leaves the table alone; a rejected query becomes `Other` |
| Handlers.GetOrderById | src/main.rs:52-62 | answers the stored order when the row exists and `RecordNotFound` when it does not; the table is unchanged either way; a rejected query becomes `Other` |
| Handlers.CreateOrder | src/main.rs:64-73 | a body without an identifier is written as the row of its status text and amount under the counter's identifier, which no row had and which the counter then passes, and is returned carrying it and reads back equal; a body with an identifier overwrites that row if present, stores nothing otherwise, leaves the counter alone, and is returned as sent; a rejected statement changes nothing and becomes `Other` |
| Handlers.UpdateOrderStatus | src/main.rs:80-96 | an absent row answers `RecordNotFound` and changes nothing; a present row gets the requested status and keeps its amount, no other row changes, and the answer is `Ok(())`; a rejected read or write changes nothing and becomes `Other` |
| Handlers.DeleteOrder | src/main.rs:98-108 | answers `Ok(())` exactly when the row existed and `RecordNotFound` exactly when it did not; afterwards the row is absent, no other row changed and the counter is unchanged |
| Handlers.UpdateThenGet | src/main.rs:178-215 | after a successful PATCH the order reads back with the new status and its old amount |
| Handlers.DeleteThenNotFound | src/main.rs:374-404 | after a successful DELETE the order reads as absent and GET answers 404 |
| Handlers.AbsentIdIsNotFound | src/main.rs:217-239 | GET, PATCH and DELETE on an identifier with no row each answer 404 "404 Record not found" and leave the table's rows as they were |
| Handlers.StoreFailureIs500 | src/main.rs:427-451 | when the engine rejects a statement (for PATCH, the read or the write), every handler answers 500 "Something went wrong!" and leaves the table unchanged |
| Handlers.CreateWithUnknownIdStoresNothing | src/main.rs:64-73 | a POST whose body carries an identifier with no row answers 200 with the body, yet stores nothing |
| Handlers.GetOrdersAfterInserts | src/main.rs:338-372 | listing after N creations answers 200 with N orders |
| Handlers.DeletedIdNotReissued | src/orders.rs:28-37 | after a DELETE of row k, a POST of a new order never answers with identifier k (under the `AUTOINCREMENT` schema the migration declares) |
| Handlers.Lifecycle | src/main.rs:122-146 | on the empty table, POST of an order for 500 yields id 1 and status `Pending`; PATCH to complete, then GET shows it complete; DELETE succeeds, then GET answers 404 |

## Left out

- Request routing, the TCP listener and process start-up (src/main.rs:22-42): framework plumbing; the routing table appears only as documentation in `handlers.dfy`.
- src/db.rs (database creation, connection pool, migrations): I/O set-up; the migrated empty table is `Orders.Empty`, and the migrations directory is not part of this model.
- JSON decoding of request bodies and the 422 answers for malformed bodies: they come from the derived `Deserialize` and the framework's JSON extractor; handlers receive already-decoded values. The JSON form of `OrderStatus` is the derived one, not the storage text modelled here.
- The SQL text and the driver's row mapping: the table is an abstract finite map; a rejected statement is the `fault` argument, and the engine's error text is never inspected.
- Concurrency and asynchronous execution: requests are modelled one at a time, and the read-then-write of PATCH as two sequential statements with no other request in between.
- Orders.GetAll: the query has no ORDER BY, so the engine may list rows in any order; the model fixes ascending identifier order, and its contract promises only membership, count and distinctness.
