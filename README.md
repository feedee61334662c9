# Marketplace order engine in Dafny

This project models the order engine of a small second-hand marketplace. There are three
tables:

- listings, whose status is Active, Paused or Sold;
- orders, whose status is CREATED, SHIPPING, DELIVERED or COMPLETED;
- order messages.

A set of HTTP handlers reads and changes these tables after checking who calls and what
state a row is in. Two versions of the handlers exist:

- **The services.** These are `services/order-svc/server.js` and
  `services/listing-svc/server.js`, with their `authRequired` middleware.
- **The earlier routers.** These are `order-svc/src/routes.js` and `listing-svc/src/routes.js`,
  behind `requireAuth` / `requireAdmin` in `order-svc/src/jwt.js`.

How the model is built:

- Each handler is a function from the database before the request (`Domain.Db`) to the reply
  (`Reply`: a status code with a body, or a status code with the `error` string) and the
  database after it.
- A transaction that rolls back is a reply whose database is the one it started from.
- Each writing handler is also a method of a class over the same tables. `Store.Market`
  models the services and `Store.LegacyMarket` the earlier routers. Each method is proved to
  produce exactly the reply and state the function describes.
- Bearer-header parsing takes the header text. The signature check `jwt.verify` is a parameter
  `verify: string -> Option<Principal>`. The database's `title ILIKE pattern` test is a
  parameter `ilike`.

The central property is single sale. In the services pairing, a listing is Sold exactly when
one order, and only one, references it:

- `Invariants.Consistent` states it.
- Every write keeps it.
- It therefore holds after any sequence of requests (`RunKeepsConsistent`).

The earlier routers break it. Their admin activate reopens a Sold listing, and it can then be
sold again (`LegacyReopenBreaksSingleSale`).

Two details of the code worth stating outright:

- The services' POST /listings accepts any number as the price, a negative one included. Only
  the earlier router refuses negative prices.
- Error strings are exactly the ones the handlers send, such as `completed`, `own_listing` and
  `not purchasable`.

Files:

- `domain.dfy`: the records.
- `text.dfy`: JavaScript's `trim`, `startsWith` and `split`.
- `auth.dfy`: both header parsers and the admin guard.
- `sorting.dfy`: `ORDER BY id DESC`.
- `order_service.dfy` and `listing_service.dfy`: the services' handlers.
- `legacy_routes.dfy`: the earlier routers.
- `invariants.dfy`: single sale, order progress and the counterexample.
- `store.dfy`: the classes.

## Model

| member | source | states |
|---|---|---|
| Text.Trim | services/order-svc/server.js:376 | The result has no white space at either end, and it is empty exactly when the input is all white space. |
| Text.TrimOfPadded | services/listing-svc/server.js:51 | Trimming white space placed around a string with no white space at its ends gives back exactly that string. |
| Text.TrimIdempotent | services/listing-svc/server.js:51 | Trimming a second time changes nothing. |
| Text.Split | services/order-svc/server.js:31 | `split(' ')` gives at least one field, and no field contains the separator. |
| Text.JoinSplit | services/order-svc/server.js:31 | Joining the fields of a split with the separator gives back the original string. |
| Auth.PrefixToken | order-svc/src/jwt.js:5 | There is a token exactly when the header starts with "Bearer ", and the header is that prefix followed by the token. |
| Auth.RequireAuth | order-svc/src/jwt.js:3-13 | 401 "missing token" exactly when the prefix is absent or nothing follows it. 401 "invalid token" exactly when the verifier rejects the remainder. The request goes on exactly when the verifier accepts the text after the 7-character prefix, with the principal it returned. |
| Auth.RequireAdmin | order-svc/src/jwt.js:15-19 | The request goes on exactly for an admin principal. No principal gives 401 "unauthorized"; a non-admin gives 403 "forbidden". |
| Auth.AdminAfterAuth | order-svc/src/jwt.js:3-19 | Behind `requireAuth`, the admin guard never answers 401: it answers 403 to non-admins and lets admins through. |
| Auth.FieldsToken | services/order-svc/server.js:29-32 | The token the services' middleware reads is non-empty and holds no space. |
| Auth.FieldsTokenExactly | services/order-svc/server.js:30-32 | The services' parser yields token t exactly when all of these hold: the header is "Bearer " then t; t is non-empty and has no spaces; the header ends there or goes on with a space. |
| Auth.ServiceAuth | services/order-svc/server.js:29-39 | Every rejection is 401 "unauthorized". A request is authenticated exactly when a token is parsed and the verifier accepts it, with the verifier's principal. |
| Auth.ParsersAgree | services/order-svc/server.js:29-39 | On "Bearer " followed by one token without spaces, both parsers extract that token and admit the same requests. |
| Auth.ParsersDifferOnSecondSpace | order-svc/src/jwt.js:5 | On "Bearer a b", jwt.js reads the token "a b" but the services read "a". |
| Auth.ParsersDifferOnDoubleSpace | order-svc/src/jwt.js:5 | On "Bearer  x", jwt.js reads the token " x" but the services read none. |
| Sorting.RowsDesc | services/listing-svc/server.js:64-68 | Gives exactly the rows of the id set, each with the data stored under its id, in strictly descending id. |
| OrderService.BuyerOrders | services/order-svc/server.js:109-126 | Gives exactly the caller's orders that join a listing, each as the join shows it, in strictly descending id. |
| OrderService.SellerOrders | services/order-svc/server.js:131-148 | Gives exactly the orders on the caller's listings, each as the join shows it, in strictly descending id. |
| OrderService.AdminOrders | services/order-svc/server.js:417-443 | Fails exactly for a non-admin, with 403. For an admin it gives every joined order, in strictly descending id, each with its status, buyer and listing and the listing's title, price and seller. |
| OrderService.OrderDetail | services/order-svc/server.js:154-189 | Checks run in this order: non-integer id 400, no joined row 404, neither admin nor buyer nor seller 403. Otherwise the joined row is returned. |
| OrderService.Purchase | services/order-svc/server.js:46-104 | Succeeds exactly when `listingId` is truthy, the database reads it as an id, and that id names an Active listing of another seller. The failures are: a missing, null or falsy value (`false`, `""`, the number 0) gives 400; a truthy value that is no id to the database (`true`, `"abc"`, `1.5`, `[5]`) gives 500; an unknown listing gives 404, the string `"0"` included; the caller's own listing gives 403 even when it is not Active; otherwise a non-Active listing gives 409. Every failure leaves the database unchanged. On success one CREATED order for the caller is added under the next order id, and the listing alone turns Sold. |
| OrderService.Transition | services/order-svc/server.js:195-329 | Ship moves CREATED to SHIPPING for the seller, found through the join. Deliver moves SHIPPING to DELIVERED and complete moves DELIVERED to COMPLETED, both for the buyer. Checks run in this order: 400, 404, 403 for the wrong role, 409 for any other status. On success only that order's status changes; on failure nothing does. |
| OrderService.MessagesOfAscending | services/order-svc/server.js:356-362 | When message ids grow with insertion, an order's messages come out in ascending id. |
| OrderService.MessagesOf | services/order-svc/server.js:356-362 | A message is in the result exactly when it is stored and belongs to the order. |
| OrderService.ListMessages | services/order-svc/server.js:335-369 | Has the same 400/404/403 gate as the order detail. It gives exactly the order's messages, in ascending id when the table is well formed. |
| OrderService.PostMessage | services/order-svc/server.js:371-414 | Checks run in this order: bad id 400; text empty after trimming 400, before any lookup; unknown order 404; admin 403 "admin_view_only"; non-participant 403; COMPLETED 409. On success exactly one message is appended, with the next id, the caller as sender and the trimmed text. Otherwise nothing changes. |
| ListingService.ListListings | services/listing-svc/server.js:50-76 | Gives exactly the listings whose title matches the trimmed query, or every listing of any status when the trimmed query is empty, in strictly descending id. |
| ListingService.PaddedQuery | services/listing-svc/server.js:51 | White space around the query does not change the result. |
| ListingService.MyListings | services/listing-svc/server.js:81-95 | Gives exactly the caller's listings in strictly descending id. |
| ListingService.CreateListing | services/listing-svc/server.js:100-117 | Fails with 400 exactly when the title is empty or the price is not a number. Otherwise it adds an Active listing of the caller under the next id and replies 201. |
| ListingService.DeleteListing | services/listing-svc/server.js:122-147 | Checks run in this order: 400, 404, 403 unless admin or seller, 409 unless Active. On success exactly that listing is removed. |
| ListingService.SetStatus | services/listing-svc/server.js:152-219 | Pause needs Active and activate needs Paused, else 409. Both need admin or seller, else 403. On success only that listing's status changes, and the failure paths change nothing. |
| ListingService.SoldIsAbsorbing | services/listing-svc/server.js:137-203 | Delete, pause and activate leave a Sold listing in place and unchanged. |
| LegacyRoutes.Where | listing-svc/src/routes.js:14-19 | There is one conjunct and one argument per filter present. The conjunct at position k uses placeholder `$k+1`. |
| LegacyRoutes.BuildWhere | listing-svc/src/routes.js:14-19 | The step-by-step pushes build exactly `Where`'s clause and arguments. |
| LegacyRoutes.WhereMeansFilters | listing-svc/src/routes.js:17-21 | The built query selects a listing exactly when every given filter matches it. With no filter, it selects exactly the Active listings. |
| LegacyRoutes.ListListings | listing-svc/src/routes.js:13-24 | Gives exactly the listings the filters ask for, in strictly descending id. |
| LegacyRoutes.CreateListing | listing-svc/src/routes.js:26-35 | Fails with 400 "bad request" exactly when the title is missing, the price is missing or null, or the price is negative. Otherwise it adds an Active listing of the caller. |
| LegacyRoutes.DeleteListing | listing-svc/src/routes.js:37-47 | A non-integer id gives 400 "bad id". Otherwise the route removes the listing and replies 204 exactly when it exists, belongs to the caller and is Active. In every other case it answers 404 and changes nothing. |
| LegacyRoutes.AdminSetStatus | listing-svc/src/routes.js:49-63 | Non-admins get 403. An admin gets 400 for a bad id and 404 for an unknown one. Otherwise the status is overwritten with the target, whatever it was. |
| LegacyRoutes.MarkSold | order-svc/src/routes.js:20 | The conditional update affects one row exactly when the listing is Active, and turns only that listing Sold. Otherwise it affects none. |
| LegacyRoutes.Purchase | order-svc/src/routes.js:7-32 | A missing value, or one `Number()` does not make an integer, gives 400. Null gives 404. A value that passes the coercion but is no id to the database (`false`, `""`, `true`, `[5]`) gives 500 "internal". Then checks run in this order: 404, 403 own listing, 409 not Active. On success the listing is Sold and one CREATED order is added. Every failure leaves the database unchanged. |
| LegacyRoutes.BuyerOrders | order-svc/src/routes.js:34-38 | Gives exactly the caller's orders as stored, in strictly descending id. |
| Invariants.SingleSale | services/order-svc/server.js:68-82 | In a consistent database, a listing is Sold exactly when exactly one order references it, and an unsold listing has none. |
| Invariants.EmptyIsConsistent | services/order-svc/server.js:46-104 | The empty database satisfies the invariant. |
| Invariants.PurchaseKeeps | services/order-svc/server.js:54-84 | A purchase keeps the invariant. |
| Invariants.TransitionKeeps | services/order-svc/server.js:195-329 | Ship, deliver and complete keep the invariant. |
| Invariants.PostMessageKeeps | services/order-svc/server.js:390-407 | Posting a message keeps the invariant, including that every sender is the buyer or the seller of the order. |
| Invariants.AppendMessageKeeps | services/order-svc/server.js:402-406 | Appending a participant's message under the next id keeps the invariant. |
| Invariants.CreateListingKeeps | services/listing-svc/server.js:100-117 | Creating a listing keeps the invariant. |
| Invariants.DeleteListingKeeps | services/listing-svc/server.js:122-147 | Deleting a listing keeps the invariant, because an Active listing has no order. |
| Invariants.SetStatusKeeps | services/listing-svc/server.js:152-219 | Pause and activate keep the invariant. |
| Invariants.StepKeepsConsistent | services/order-svc/server.js:46-414 | Every writing request of the two services keeps the invariant. |
| Invariants.RunKeepsConsistent | services/listing-svc/server.js:137-203 | Any sequence of requests keeps the invariant, so single sale holds after every request. |
| Invariants.StepKeepsSold | services/listing-svc/server.js:137-203 | No request changes or removes a Sold listing. |
| Invariants.RunKeepsSold | services/order-svc/server.js:68-71 | After any sequence of requests, a Sold listing is still there, unchanged. |
| Invariants.SecondPurchaseFails | services/order-svc/server.js:64-71 | After a successful purchase and any later requests, buying the same listing again fails with 409 "not_active" (or 403 for its seller) and changes nothing. This holds for any body naming that listing, a number other than 0 or a numeric string. |
| Invariants.StepAdvancesOrder | services/order-svc/server.js:211-319 | Every request keeps every order, with its listing and buyer. Its status stays or moves exactly one step forward, and a COMPLETED order never changes. |
| Invariants.TraceAdvances | services/order-svc/server.js:221-313 | Along any run, each status of an order is followed by itself or the next one. |
| Invariants.CompressIsSlice | services/order-svc/server.js:221-313 | Once repeats are removed, such a history is the stretch of the lifecycle that starts at its first status. |
| Invariants.HistoryIsPrefix | services/order-svc/server.js:195-329 | For an order that is CREATED, the history of its status over any run, repeats removed, is a prefix of CREATED, SHIPPING, DELIVERED, COMPLETED. |
| Invariants.PurchasedHistoryIsPrefix | services/order-svc/server.js:73-76 | A purchase creates a CREATED order and keeps the invariant. That order's status history over any later run, repeats removed, is a prefix of the lifecycle. |
| Invariants.PurchasesAgree | order-svc/src/routes.js:7-32 | For any body the database reads as an id, other than the number 0, the earlier purchase route and the service's succeed together and leave the same database. |
| Invariants.LegacyPurchaseKeeps | order-svc/src/routes.js:20-25 | The earlier purchase route keeps the invariant too. |
| Invariants.LegacyReopenBreaksSingleSale | listing-svc/src/routes.js:57-62 | A concrete run: a buyer buys, an admin reactivates the Sold listing through the earlier route, and a second buyer buys it. This leaves two orders on one listing and breaks the invariant. The service refuses the same reactivation with 409. |
| Store.Market.constructor | services/order-svc/server.js:73-76 | The tables start empty, and every id sequence behind an `INSERT ... RETURNING id` starts at 1. This state satisfies the invariant. |
| Store.Market.Purchase | services/order-svc/server.js:46-104 | The method's reply and new state are exactly those of `OrderService.Purchase`, and it keeps the invariant. |
| Store.Market.Advance | services/order-svc/server.js:195-329 | The method's reply and new state are exactly those of `OrderService.Transition`, and it keeps the invariant. |
| Store.Market.PostMessage | services/order-svc/server.js:371-414 | The method's reply and new state are exactly those of `OrderService.PostMessage`, and it keeps the invariant. |
| Store.Market.CheckPost | services/order-svc/server.js:372-400 | The checks refuse exactly when `OrderService.MayPost` fails. A refusal is the handler's own reply, and the tables stay as they were. |
| Store.Market.InsertMessage | services/order-svc/server.js:402-407 | The INSERT appends the message and advances the message id sequence, and nothing else changes. A participant's message on a joined order keeps the invariant. |
| Store.Market.CreateListing | services/listing-svc/server.js:100-117 | The method's reply and new state are exactly those of `ListingService.CreateListing`, and it keeps the invariant. |
| Store.Market.DeleteListing | services/listing-svc/server.js:122-147 | The method's reply and new state are exactly those of `ListingService.DeleteListing`, and it keeps the invariant. |
| Store.Market.SetStatus | services/listing-svc/server.js:152-219 | The method's reply and new state are exactly those of `ListingService.SetStatus`, and it keeps the invariant. |
| Store.LegacyMarket.constructor | order-svc/src/routes.js:23 | The tables start empty, and every id sequence behind an `INSERT ... RETURNING *` starts at 1. This state is well formed. |
| Store.LegacyMarket.Purchase | order-svc/src/routes.js:7-32 | The method, with its counted conditional update, has exactly the reply and new state of `LegacyRoutes.Purchase`, and it keeps the id sequences well formed. |
| Store.LegacyMarket.CreateListing | listing-svc/src/routes.js:26-35 | The method's reply and new state are exactly those of `LegacyRoutes.CreateListing`. |
| Store.LegacyMarket.DeleteListing | listing-svc/src/routes.js:37-47 | The method, with its row count, has exactly the reply and new state of `LegacyRoutes.DeleteListing`. |
| Store.LegacyMarket.AdminSetStatus | listing-svc/src/routes.js:49-63 | The method's reply and new state are exactly those of `LegacyRoutes.AdminSetStatus`. |

## Left out

- Express set-up, CORS, the `pg` pool, `/health` and `app.listen`. These are plumbing; a handler's input is its path id, body fields and principal.
- `jwt.verify` is the parameter `verify`. The signing and the secret are not part of this model.
- Row locks (`FOR UPDATE`) and concurrent requests. Each handler is one atomic step, and single sale is proved for requests served one at a time. Under this model the earlier purchase route's 409 "race condition" branch can never be taken; `LegacyRoutes.MarkSold` states when it would be.
- `created_at` and the database clock. They are dropped from every row and reply.
- The 500 replies on database errors, other than those of a purchase whose `listingId` the database cannot read as an id. Only the fact that a rolled-back transaction changes nothing is modelled.
- `ILIKE` pattern semantics (wildcards inside the query, case folding). The match is the parameter `ilike`, applied to `%` + query + `%`.
- Prices are integers. JavaScript numbers, fractions and NaN are not modelled, and a services price that is "not a number" is `None`.
- Request bodies are reduced to what the handlers distinguish:
  - a title is a string, empty when missing or falsy;
  - a message text is a string, empty when missing;
  - the body `listingId` is missing, null, a JSON integer, a string that `Number()` and the database both read as the same integer, `false` or `""`, another value that `Number()` makes an integer, or anything else;
  - path ids are an integer or not.
  A non-string title or text is not modelled.
- A non-numeric `sellerId` filter is not modelled.
- Strings the database reads as an integer but `Number()` does not (such as `"1_000"`), and ids outside the database's 32-bit integer range, are not modelled: `BodyId` has no class for them.
- Reply bodies keep the fields the handlers compute. An order reply carries the joined listing fields, and the earlier routers' `SELECT *` rows are the stored records.
- The earlier `/listings/mine` (listing-svc/src/routes.js:7-11) runs the same query as the services' and is modelled by `ListingService.MyListings`.
- The read handlers have no class methods. They change nothing and are functions of the database.
- `services/auth-svc` and `auth-svc` (credential check and token signing) are not part of this model. Neither is the React front end.
- Invariants.Consistent: it states that a message's sender is a party of its order. That senders are never admins is a property of the principal, not of the stored row, and it is stated by `OrderService.PostMessage` refusing admins with 403.

## Findings

| source | as written | input that shows it | evidently intended | confidence | as-written member | corrected member |
|---|---|---|---|---|---|---|
| listing-svc/src/routes.js:57-62 | Admin activate sets the status to Active whatever it was, Sold included. | Listing 1 is Active. User 2 buys it. An admin activates listing 1. User 4 buys it. Listing 1 now has two orders. | A Sold listing stays Sold, as in services/listing-svc/server.js:203, which requires Paused. Single sale then holds. | high (not executed) | Invariants.LegacyReopenBreaksSingleSale | Invariants.RunKeepsConsistent |
