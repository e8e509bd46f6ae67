# Order service: the order lifecycle as a verified state machine

This project models the order service of a subscription shop. The service
is an Express application over a PostgreSQL `orders` table. It creates
orders for products that a separate product service prices, lets a client
set an order's status, and lists, reads and deletes orders.

The model leaves out the HTTP and database plumbing. What remains:

- **The orders table** (`Orders`, `OrderService.OrderTable`). The table is
  kept as its rows in insertion order. It also holds the next serial id and
  a clock that stamps `created_at`, and the clock strictly increases. The
  invariant `WellFormed` says five things. Ids and stamps strictly increase
  along the rows. Every id is below the next serial value. Every stamp is
  below the clock, so the next insert keeps the stamps increasing. Every
  status is one of `pending`, `confirmed`, `completed` and `cancelled`.
  Every product id is truthy. Under this invariant,
  `ORDER BY created_at DESC` is the rows read from last to first.
- **The writing handlers** are methods of `OrderTable`:
  - `Create` is POST /api/orders.
  - `UpdateStatus` is PUT /api/orders/:id/status.
  - `Delete` is DELETE /api/orders/:id.
  
  Each returns the HTTP status code and body, and each states the table's
  new state. The product service is an object, `ProductService`. It
  has a fixed answer for each product id: `Found(pricePerMonth,
  pricePerYear)`, or `Failed(responseStatus)` for an error. It also logs
  every id it is asked for. `Create` states what the log holds afterwards:
  one new request for a truthy `product_id`, and none for a falsy one. So
  the `product_id` check comes before the lookup. A failing database is the
  flag `storeUp`: the statement fails with a 500 and the table keeps its
  state.
- **The creation decision** (`OrderService.PlanCreate`) applies the checks
  in the handler's order:
  1. A falsy `product_id` is a 400.
  2. If the product service answers 404, that is a 400, because the client
     asked for a missing product. Any other failure of the service is a 500.
  3. Otherwise the pricing rule gives the total.
- **The pricing rule** (`Pricing`) is `price_per_month || price_per_year || 0`
  times `quantity`, and `quantity` defaults to 1. Truthiness follows
  JavaScript: a monthly price of 0, or no monthly price, falls through to
  the yearly price, and then to 0. Prices are whole numbers (cents).
- **The read handlers** (`OrderQueries`) are pure functions over the rows
  and over the products table. The products table is a map from product id
  to `publication_name`, and the left join yields `None` when no product
  matches. The handlers are GET /api/orders, GET /api/orders/:id and
  GET /api/orders/status/:status.

Request bodies are JSON scalars (`JsValues.Value`): undefined, null,
booleans, integers and strings. They follow JavaScript truthiness.
`OrderScenarios` holds client request sequences proved from the contracts
alone.

`quantity` is never validated (server.js:77, 98), so the model accepts any
integer, including zero and negative values, and the total follows from it.

## Model

| member | source | states |
|---|---|---|
| Pricing.UnitPrice | server.js:97 | the unit price is the monthly price when it is truthy, else the yearly price when that is truthy; it is 0 exactly when neither is truthy |
| Pricing.OrderedQuantity | server.js:77 | an omitted quantity is 1; a given quantity is used as given, with no check |
| Pricing.TotalPrice | server.js:97-98 | the total is the first truthy price times the quantity, or 0 when neither price is truthy; an omitted quantity leaves the unit price as the total |
| OrderService.PlanCreate | server.js:77-98 | a falsy product id is refused with 400 "Product ID is required", whatever the product service would say; a 404 from the product service is 400 "Product not found"; any other failure is 500 "Failed to validate product"; a refusal happens exactly in these cases; the code is 400 exactly for a falsy id or a 404; otherwise the plan carries the defaulted quantity and the priced total |
| OrderService.ProductService.Fetch | server.js:86-87 | a request for a product is logged in the service's request log and answered with the service's answer for that id |
| OrderService.IsValidStatus | server.js:118-119 | a status is accepted exactly when it is one of the four strings; any other JSON value, including a non-string, is refused |
| OrderService.OrderTable.Create | server.js:75-110 | the product service receives exactly one request, for the given id, when the product id is truthy, and none when it is falsy; a refusal, or a failed insert (500 "Failed to create order"), leaves the table as it was; a success appends exactly one row: a fresh id, the given product id, the quantity and total from the plan, status pending and a new stamp; it returns that row with 201, and every earlier row stays the same |
| OrderService.OrderTable.UpdateStatus | server.js:113-137 | a status outside the four is 400 "Invalid status", checked before the id and the store, and the table is unchanged; a failed store is 500 and the table is unchanged; otherwise only the row with that id gets the new status, whatever its old status, and the updated row is returned with 200; a missing id is 404 with the table unchanged; the invariant is kept |
| OrderService.OrderTable.Delete | server.js:158-172 | a failed store is 500 with the table unchanged; a missing id is 404 with the table unchanged; otherwise exactly that row is removed (one row fewer; the removed row plus the remaining rows is the old table) and it is returned in `{ message: "Order deleted successfully", order }` |
| Orders.Find | server.js:56-61 | a row found has the id asked for and is in the table; nothing is found exactly when no row has that id |
| Orders.Remove | server.js:161 | the remaining rows are exactly the table's rows whose id differs from the one deleted |
| Orders.SetStatus | server.js:123-126 | the table keeps its length; a row with the id gets the new status and keeps its other columns; every other row is unchanged |
| Orders.NewestFirst | server.js:39-44 | the listing holds the table's rows as a permutation, from the last inserted to the first; in a well-ordered table the creation stamps strictly decrease along it |
| Orders.WithStatus | server.js:143-149 | the listing holds exactly the table's rows with the given status |
| Orders.RemoveKeepsAscending | server.js:161 | deleting keeps the remaining rows in insertion order, with ids and stamps still strictly increasing |
| Orders.RemoveAbsent | server.js:161-165 | deleting an id no row has leaves the table as it was |
| Orders.RemoveExactlyOne | server.js:161-167 | in a well-ordered table, deleting an existing id removes exactly one row, the one found |
| Orders.SetStatusKeepsWellFormed | server.js:118-126 | setting one of the four statuses keeps the table's invariant |
| Orders.FindAfterSetStatus | server.js:123-132 | after an update, the id finds its old row with the new status, and every other id finds what it found before |
| Orders.KeepStatusKeepsOrder | server.js:148 | filtering a newest-first listing by status keeps it newest first |
| Orders.WithStatusIsFilteredListing | server.js:143-149 | the rows of one status, newest first, are the full newest-first listing with the other statuses taken out, in the same relative order |
| Orders.WithStatusNewestFirst | server.js:148 | in a well-ordered table the by-status rows are strictly newest first |
| OrderQueries.NameOf | server.js:42 | the left join gives the product's publication name when the product id has one, else none |
| OrderQueries.Join | server.js:40-42 | each order keeps its place and carries the publication name of its product, or none |
| OrderQueries.ListOrders | server.js:37-50 | a failed store is 500 "Failed to fetch orders"; otherwise it returns 200 with one joined row per order, from the newest to the oldest, with creation stamps strictly decreasing in a well-ordered table |
| OrderQueries.GetOrder | server.js:53-72 | a failed store is 500 "Failed to fetch order"; it is 404 "Order not found" exactly when no row has the id; otherwise it is 200 with the row of that id and its publication name |
| OrderQueries.ListOrdersByStatus | server.js:140-155 | a failed store is 500; otherwise it is 200, and the listing holds exactly the rows with that status (any string, not only the four), each with its publication name |
| OrderQueries.JoinKeepsFilter | server.js:144-147 | joining publication names and filtering by status can be done in either order |
| OrderQueries.ByStatusIsFilteredList | server.js:140-150 | the by-status response lists exactly the full listing's rows that have that status, in the same relative order |
| OrderQueries.ByStatusNewestFirst | server.js:148 | the by-status response is strictly newest first in a well-ordered table |
| OrderQueries.UnknownStatusListsNothing | server.js:140-150 | a status outside the four gives 200 with an empty list, not an error |
| OrderQueries.GetAfterRemoveNotFound | server.js:53-67 | after an order is deleted, getting its id is 404 "Order not found" |
| OrderScenarios.MonthlyPriceTimesQuantity | server.js:97-105 | a product at 1000 a month, ordered three times, makes a pending order with total 3000 and a 201 |
| OrderScenarios.UnknownProductIsClientError | server.js:79-90 | a product the service reports as missing is 400 "Product not found"; an empty product id is 400 "Product ID is required", and the product service is not asked (its log holds only the first request) |
| OrderScenarios.CancelledOrderReopens | server.js:118-132 | a cancelled order can be set back to pending; "done" is 400 "Invalid status" and the order stays pending |
| OrderScenarios.DeleteThenGet | server.js:161-167 | deleting an order returns it; getting it afterwards, or deleting it again, is 404 |

## Left out

- The Express app, helmet, cors, the JSON body parser, the health endpoint with its wall-clock timestamp, and the fallback error and 404 middleware (server.js:22-34, server.js:188-197). These are routing only.
- The `pg` pool, its environment configuration, the SQL text and the SIGTERM shutdown (server.js:11-20, server.js:199-208). These are I/O and process lifecycle, and the table and the `storeUp` flag stand in for them.
- GET /api/test-db (server.js:175-186). It only counts rows to check that the database is reachable.
- The HTTP call to the product service (server.js:86). It is a network client; only its answer and the fact of the request are modelled, by `ProductService`.
- `console.error` logging.
- Concurrency between requests: two updates of the same row are last-write-wins in the database. This is not a sequential property.
- Prices are whole numbers, so JavaScript floating-point multiplication is not modelled. Prices that the product service might send as strings are not modelled either. For a string, JavaScript truthiness differs: `"0.00"` is truthy.
- Request values are JSON scalars. Arrays and objects as `product_id` or `status`, NaN, and JavaScript's coercion of a non-number `quantity` (a `null`, a string, a boolean) in `unitPrice * quantity` are not modelled. `quantity` is either omitted or an integer.
- A path id that is not an integer makes PostgreSQL raise an error, which the handlers report as a 500. Path ids are integers here, and such errors fall under `storeUp` being false.
- `created_at` comes from a strictly increasing clock, so stamps never tie. If two rows had the same database timestamp, their relative order in a listing would be unspecified, and the model does not cover that case.
- The products table behind `publication_name` is a fixed map. The model does not cover changes to it, or a product being deleted while orders still refer to it.
- Serial ids and the stored `product_id`. The model gives a new row exactly the next serial value and keeps the serial unchanged when an insert fails. PostgreSQL may use up a sequence value on a failed INSERT, so real ids are fresh but may have gaps. The model also stores the request's JSON value as `product_id`, not the value converted to the column's type that `RETURNING *` gives back.
