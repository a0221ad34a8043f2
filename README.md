# Shop backend: sessions, admin products, catalogue cache and orders

A Dafny model of the request handlers of a small e-commerce backend written in Go
(`backend/main.go`: gin for routing, gorm over SQLite for the tables, Redis for
a cache). The model covers the following:

- **Tables** (`tables.dfy`). Users, products and orders are sequences of rows in
  primary-key order. gorm's `First` is the first row that satisfies a condition.
  Autoincrement keys start at 1.
- **Sessions** (`auth.dfy`).
  - The bearer token is `strings.Split(header, " ")[1]`. A header without a space
    panics, which is modelled as the error `MalformedHeader`.
  - `CheckLogin` resolves a token to a user ID, and `CheckPermission` to the admin
    level. Both are modelled as written and in a corrected form (see Findings).
  - The guards in front of the order and admin handlers are modelled too.
- **Inventory** (`inventory.dfy`):
  - the stock check and decrement of `POST /order`, in 64-bit arithmetic as
    written and in corrected form;
  - the order total;
  - the `unpaid` → `paid` transition of `POST /order/pay`.
- **Catalogue** (`catalogue.dfy`). `GET /product` is a read-through cache over a
  single key that holds the whole product list for 5 seconds. The clock is a
  millisecond parameter. The failures of the cache and of the database are flags.
- **Store** (`store.dfy`). A `Store` class holds the three tables, the next
  autoincrement keys and the cache entry. It has one method per handler:
  - `/register`, `/login`, `/logout`;
  - `/admin/product` create, get and delete;
  - `/product`;
  - `/order` and `/order/pay`.

  Every method keeps the store invariant `Valid()`:
  - keys are ascending and below the next key;
  - usernames and emails are unique;
  - non-empty tokens are unique;
  - every order row is for a registered user and a positive quantity, with status
    `unpaid` or `paid`.

  The order handler is specified by the function `PlaceOrderStep`. Lemmas state
  what that function guarantees and that it keeps the invariant.

Some things come from outside the process and are parameters:
- the bcrypt hash (`passwordHash`) and bcrypt comparison (`matches`);
- the fresh UUID (`newToken`), required to be non-empty and held by nobody;
- the current time;
- whether each database or Redis call fails.

An order should ask for at least one unit, and stock should never go below zero.
The code enforces neither. The model keeps the code's behaviour in the as-written
members, and those two gaps are under Findings. The store uses the corrected
definitions.

## Model

| member | source | states |
|---|---|---|
| Tables.Wrap64 | backend/main.go:234 | Go `int` subtraction: the exact result when it is in 64-bit range, and the result minus 2^64 when it overflows by one wrap |
| Tables.First | backend/main.go:70 | gorm `First`: the index of the first row that meets the condition; no earlier row meets it; none is returned exactly when no row meets it |
| Tables.FindProduct | backend/main.go:226 | the product lookup by primary key finds a row with that ID, and finds none exactly when no row has it |
| Tables.FindOrder | backend/main.go:290 | the order lookup by primary key finds a row with that ID, and finds none exactly when no row has it |
| Tables.FindUsername | backend/main.go:110 | the user lookup by username finds a row with that name, and finds none exactly when no row has it |
| Tables.FindToken | backend/main.go:129 | the user lookup by token finds the first user holding the token; none is returned exactly when nobody holds it |
| Tables.UsersKeyedAppend | backend/main.go:97 | inserting a user with the next autoincrement key keeps keys ascending and below the next key |
| Tables.UsersKeyedUpdate | backend/main.go:120 | saving a user row under its own key keeps the keys in order |
| Tables.ProductsKeyedAppend | backend/main.go:149 | inserting a product with the next key keeps the product keys in order |
| Tables.ProductsKeyedUpdate | backend/main.go:238 | saving a product row under its own key keeps the keys in order |
| Tables.ProductsKeyedRemove | backend/main.go:182 | deleting a product keeps the keys in order, and no remaining row has the deleted ID |
| Tables.OrdersKeyedAppend | backend/main.go:239 | inserting an order with the next key keeps the order keys in order |
| Tables.OrdersKeyedUpdate | backend/main.go:299 | saving an order row under its own key keeps the keys in order |
| Auth.Split | backend/main.go:139 | `strings.Split(h, " ")`: at least one field and no field holds a space; there is exactly one field iff `h` has no space |
| Auth.JoinSplit | backend/main.go:139 | splitting loses nothing: joining the fields with single spaces gives the header back |
| Auth.SplitAfterPrefix | backend/main.go:139 | a space-free scheme followed by a space is the first field, and the rest of the header splits on its own |
| Auth.SplitSpaceFree | backend/main.go:139 | a string without a space splits into itself alone |
| Auth.SplitJoin | backend/main.go:139 | splitting undoes joining space-free fields |
| Auth.BearerToken | backend/main.go:138-140 | `tokenParts[1]` is missing (the request panics) iff the header has no space; the token never holds a space |
| Auth.BearerTokenOf | backend/main.go:213-215 | for any scheme, the token is the second field, ending at the next space if there is one; the scheme is never checked |
| Auth.CheckLogin | backend/main.go:68-74 | the ID of the first user, in key order, holding the token; 0 when nobody holds it; non-zero when someone does (IDs are positive) |
| Auth.CheckPermission | backend/main.go:57-66 | 0 (allowed) iff the first user holding the token has level 2, otherwise 1 |
| Auth.EmptyTokenResolvesLoggedOutUser | backend/main.go:68-74 | the header `Bearer  x` carries the token "", and `CheckLogin("")` returns the ID of a logged-out user |
| Auth.EmptyTokenPassesAdminGate | backend/main.go:57-66 | `CheckPermission("")` allows a request once an administrator has logged out |
| Auth.CheckLoginStrict | backend/main.go:68-74 | corrected: the empty token resolves to nobody; any other token resolves to the ID of the first user, in key order, holding it, and to 0 when nobody holds it |
| Auth.CheckPermissionStrict | backend/main.go:57-66 | corrected: the empty token is denied; an allowed token is held by a level-2 user |
| Auth.LoginGate | backend/main.go:213-219 | corrected (resolves the token with `CheckLoginStrict`, so the empty token is refused; the code at lines 215-216 admits it): the order handlers' guard; a refusal is `MalformedHeader` without a space and `PermissionDenied` otherwise; an admission gives the non-zero ID of a user holding that non-empty token |
| Auth.LoginGateAdmits | backend/main.go:213-219 | corrected guard: with positive IDs, the order handlers admit a request iff its header carries a non-empty token that some user holds |
| Auth.AdminGate | backend/main.go:138-143 | corrected (checks the token with `CheckPermissionStrict`, so the empty token is refused; the code at line 140 admits it for a logged-out administrator): the admin handlers' guard; a refusal is `MalformedHeader` without a space and `PermissionDenied` otherwise; an admission means a level-2 user holds that non-empty token |
| Auth.AdminGateAdmits | backend/main.go:138-143 | corrected guard: with unique tokens, the admin handlers admit a request iff its header carries the non-empty token of a level-2 user |
| Auth.AdminGateExact | backend/main.go:57-66 | with unique tokens, the corrected admin check passes exactly for the non-empty token of a level-2 user |
| Auth.LogoutRevokesToken | backend/main.go:129-134 | after logout, the user's previous token resolves to nobody |
| Auth.LoginRotatesToken | backend/main.go:118-120 | after login, the new token resolves to the user and the previous one to nobody |
| Auth.RegisteredUserSession | backend/main.go:93-97 | a newly registered user (level forced to 1, fresh token) is logged in under its own ID and is refused by the admin check |
| Inventory.ReserveAsWritten | backend/main.go:230-234 | as written: refused with `InsufficientStock` iff stock < quantity; otherwise only the stock changes, to stock − quantity, less 2^64 when that reaches 2^63 |
| Inventory.NegativeQuantityRestocks | backend/main.go:230-235 | as written, quantity -3 on stock 10 is accepted, raises the stock to 13 and gives a negative total |
| Inventory.NegativeQuantityWrapsStock | backend/main.go:230-234 | as written, quantity MinInt64+1 on stock 1 is accepted and wraps the stock below zero |
| Inventory.Reserve | backend/main.go:230-234 | corrected: accepted iff 0 < quantity <= stock; `InvalidQuantity` for quantity <= 0, else `InsufficientStock`; on success the stock falls by exactly the quantity and stays >= 0 |
| Inventory.OrderTotal | backend/main.go:235 | for a non-negative price, the total of an order for at least one unit is at least the unit price; for a positive price the total is negative iff the quantity is |
| Inventory.ReserveEachConserves | backend/main.go:225-238 | over any sequence of orders for one product: stock + units sold is constant, only the stock changes, and stock never goes negative |
| Inventory.SecondOrderRejected | backend/main.go:230-235 | stock 10 at 2.00: an order for 3 costs 6.00 and leaves 7, and a following order for 8 is refused |
| Inventory.Pay | backend/main.go:294-298 | payment succeeds iff the status is `unpaid`, giving `paid`; otherwise `AlreadyPaid` |
| Inventory.PayAtMostOnce | backend/main.go:294-298 | an order that was just paid cannot be paid again |
| Catalogue.Get | backend/main.go:187-188 | a cache hit iff an entry exists and has not expired; a hit returns the stored list |
| Catalogue.Read | backend/main.go:185-211 | a served list is the table or the cached list; the cache only ever changes to the loaded table with a 5-second expiry, and only on success; a cache-read error changes nothing |
| Catalogue.HitIsServedVerbatim | backend/main.go:205-209 | a hit returns the cached list whatever the table holds, and leaves the cache alone |
| Catalogue.MissReadsThrough | backend/main.go:188-202 | a miss succeeds iff both the load and the store succeed; it then returns the table and caches it for 5 s; on failure the cache is unchanged and the error is `ProductsReadFailed` when the load failed, otherwise `CacheWriteFailed` |
| Catalogue.StaleWithinTtl | backend/main.go:195-197 | within 5 s of a refill every read returns that refill's list even if the table changed; from 5 s on a read reloads the table |
| Shop.SetTokenKeepsUsers | backend/main.go:118-120 | giving a user a fresh token, or the empty one, keeps the keys, the unique indexes and token uniqueness |
| Shop.AddUserKeepsUsers | backend/main.go:94-97 | inserting a user with a fresh token and an unused username and email keeps the users table's invariants |
| Shop.AdmittedOrderIsWellFormed | backend/main.go:236-239 | an unpaid order for a positive quantity by an admitted user keeps every order row well formed |
| Shop.AdmittedUserIsRegistered | backend/main.go:215-219 | the user an order request is admitted for has a key below the next user key |
| Shop.PlaceOrderStep | backend/main.go:212-244 | corrected (uses `LoginGate` and `Reserve`, so the empty token and a quantity of 0 or less are refused, which the code at lines 215-216 and 230 lets through): `POST /order` as a function of the tables: guard, product lookup, stock check and decrement, product save, order insert; its guarantees are stated by `Shop.PlaceOrderEffects` and `Shop.PlaceOrderKeepsInvariant` |
| Shop.PlaceOrderEffects | backend/main.go:212-243 | only the ordered product changes, by exactly the quantity and never below 0; a placed order is unpaid, costs quantity × price and belongs to the token's user; every rejection leaves the orders table unchanged, and all but the failed insert leave the stock unchanged; once the user and product are found, the order is placed iff 0 < quantity ≤ stock and the insert succeeds, and each error (`InvalidQuantity`, `InsufficientStock`, `OrderCreationFailed`) happens exactly in its case |
| Shop.PlaceOrderKeepsInvariant | backend/main.go:226-242 | placing an order keeps the store invariant, whether it succeeds or fails |
| Shop.Store.constructor | backend/main.go:78-82 | the store starts with empty tables, no cache entry and every key counter at 1 |
| Shop.Store.Register | backend/main.go:84-102 | fails with `RegistrationFailed` iff the username or email is taken; otherwise appends the user with the next ID, level 1 (whatever was requested) and the fresh token, which then logs in as that user and is refused by the admin check |
| Shop.Store.Login | backend/main.go:103-122 | `UserNotFound` for an unknown name and `IncorrectPassword` on a hash mismatch, with nothing changed; otherwise only that user's token is replaced; the new token resolves to the user and the old one to nobody |
| Shop.Store.Logout | backend/main.go:123-136 | `UserNotFound` when nobody holds the token; otherwise the first holder's token becomes "" and the token resolves to nobody |
| Shop.Store.CreateProduct | backend/main.go:137-154 | the admin guard's error, or `ProductCreationFailed` when the insert fails, with nothing changed; otherwise appends the product under the next ID |
| Shop.Store.GetProduct | backend/main.go:155-169 | the admin guard's error; otherwise succeeds iff a product has that ID, returning that product |
| Shop.Store.DeleteProduct | backend/main.go:170-184 | the admin guard's error or `ProductNotFound` with nothing changed; otherwise removes that row, and no product with that ID is left |
| Shop.Store.ListProducts | backend/main.go:185-211 | the response and the new cache are exactly what `Catalogue.Read` gives for the old cache, the table and the clock |
| Shop.Store.PlaceOrder | backend/main.go:212-244 | corrected, as `PlaceOrderStep` is: the response, the new products and orders tables and the next order key are exactly those of `PlaceOrderStep` on the old ones (whose guarantees `PlaceOrderEffects` states), and the invariant is kept |
| Shop.Store.SaveOrder | backend/main.go:238-242 | the product row is replaced by the given row; then either the insert fails with the orders unchanged, or an unpaid order under the next key is appended; the invariant is kept |
| Shop.Store.PayOrder | backend/main.go:275-301 | the login guard's error or `OrderNotFound` with nothing changed; an unpaid order becomes paid and nothing else changes; any other status is refused with `AlreadyPaid` |

## Left out

- HTTP, gin routing and JSON binding. A malformed request body, and the error that answers it, are not modelled. Handlers take the decoded fields as parameters.
- Client-supplied row IDs. gorm binds a JSON `ID` field into `gorm.Model` wherever a request body is bound to a row:
  - at registration (backend/main.go:86, 97) and product creation (backend/main.go:145, 149);
  - at order placement, into the `Order` that is inserted (backend/main.go:221, 239);
  - at logout, into the `User` whose non-zero primary key gorm's `First` adds as a condition (backend/main.go:125, 129).

  The model always inserts under the next autoincrement key and looks a logout up by token alone.
- Soft delete. gorm's `Delete` sets `DeletedAt`, and later queries skip the row. The model removes the row, which every query here observes the same way.
- Prices and totals. They are `float64` in the source and are kept as integer cents here. Floating-point rounding is not modelled.
- bcrypt and UUID generation. They are parameters: `passwordHash`, `matches` and `newToken`. UUID uniqueness is the precondition that `newToken` is non-empty and held by nobody.
- Route parameters. `/admin/product/:id` takes its ID as a string, so a non-numeric ID matches no row. The model takes a natural number.
- Concurrency. Requests are modelled one at a time. The check-then-act race between the stock check and the decrement is therefore not modelled.
- The empty-token admission of the code in the store. Every guarded store method (`CreateProduct`, `GetProduct`, `DeleteProduct`, `PlaceOrder`, `PayOrder`) goes through the corrected guards `LoginGate` and `AdminGate`, and `PlaceOrder` through the corrected `Reserve`. The code's admission of the empty token (backend/main.go:140, 158, 173, 215-216, 278) and its acceptance of a quantity of 0 or less (backend/main.go:230) are modelled only by the as-written members listed under Findings.
- Other registration failures. The registration insert fails only on the unique indexes on username and email. Other database failures at that insert are not modelled.
- Ignored errors from `db.Save`. Their failures are not modelled: saves always succeed.
- Redis JSON encoding. The JSON round trip of the cached list is taken as the identity, and an unmarshal error on a hit, which is ignored, is not modelled.
- Cache expiry. Redis expires a key at the end of its time-to-live. The model treats the instant `now == expiresAt` as expired.
- Comments. The handlers of `/comment` (backend/main.go:302-335) are outside this model.
- Order listing and lookup. `GET /order` and `GET /order/:id` (backend/main.go:245-274) are outside this model.
- Startup: database migration and `router.Run`.
- Negative values from administrators. Product creation stores the stock and price an administrator sends as given, negative values included. Non-negative stock is therefore guaranteed only for stock changed by orders (`Inventory.Reserve`), not by the store invariant.
- Order ownership on payment. As in the source, any logged-in user may pay any order. There is no ownership check.
- Logout lookup. As in the source, logout looks the token up directly. An empty token therefore logs out the first logged-out user, which changes nothing.
- The global database handle. `CheckLogin` and `CheckPermission` read the global `db`. Here they take the users table as a parameter.
- Header whitespace. net/http trims leading and trailing whitespace from a header value, not inner spaces. The model receives the value after that trimming.

## Findings

| source | as written | input that shows it | evidently intended | confidence | as-written member | corrected member |
|---|---|---|---|---|---|---|
| backend/main.go:68-74 | `CheckLogin` looks up any token, including "", and logout sets a user's token to "" (backend/main.go:133) | header `Bearer  x` (two spaces) gives the token "", which resolves to the first logged-out user and admits the request as that user | a logged-out session never matches; the empty token belongs to nobody | high; not executed | Auth.EmptyTokenResolvesLoggedOutUser | Auth.CheckLoginStrict |
| backend/main.go:57-66 | `CheckPermission("")` passes when the first user with token "" is an administrator | an administrator logs out, then any client sends `Bearer  x` to `/admin/product` | the admin check never passes for the empty token | high; not executed | Auth.EmptyTokenPassesAdminGate | Auth.CheckPermissionStrict |
| backend/main.go:230-234 | only `Stock < Quantity` is checked, so a quantity of 0 or less is accepted | quantity -3 on stock 10 raises the stock to 13 with total -6.00; quantity MinInt64+1 on stock 1 wraps the stock negative | an order asks for at least one unit, and stock never goes negative | high; not executed | Inventory.NegativeQuantityRestocks | Inventory.Reserve |
