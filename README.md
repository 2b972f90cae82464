# Bookstore backend: order workflow and catalog, modelled in Dafny

This project models the business logic of a Spring Boot bookstore backend. It covers four parts:

- the order workflow of `OrderController`: placing an order against the catalog, listing the caller's orders, the two admin status overwrites, cancellation by the owner, and the owner-or-admin check in front of the invoice download;
- the catalog operations of `BookController`: create, read, update and delete by id, the listing request with its sort direction, and the title, author and genre searches;
- registration in `AuthController`: a duplicate-email check, then the account is stored with its password encoded;
- `GlobalExceptionHandler`, which maps each kind of thrown exception to an HTTP status and error label.

The three Spring Data repositories become three classes in `Repositories`. Each holds a map from id to record and a `nextId` counter that stands for the database's identity column. Each constructor gives the empty table, which satisfies `Valid()`. Their `Valid()` invariants say that every record is stored under its own id. For orders, `Valid()` also says that every stored order's `totalAmount` equals the sum of price × quantity over its lines. For users, it also says that no two accounts share an email. The controllers have no state of their own, so their endpoints are module-level methods that take the repositories as parameters and declare them in `modifies`.

The loop in `placeOrder` is specified by the pure function `OrderWorkflow.Run`. It processes the request items from left to right: each item either aborts the loop, or saves its decremented book and adds one line. `OrderController.PlaceOrder` is the imperative loop, and its postcondition ties the final catalog, the stored order and the result to `Run`. The lemmas in `OrderWorkflow` then state what `Run` guarantees.

What the code guarantees, where it falls short of what an order service is usually expected to do (the model follows the code):

- **Placement is not atomic.** Each book is saved as soon as its own item passes. A later failure throws without undoing those saves, so the earlier decrements persist (`FailureAtItem`, `PartialDecrementPersists`). Nothing makes placement all-or-nothing.
- **Empty orders are accepted.** A request with no items places an order with no lines and total 0 (`EmptyRequestPasses`). Nothing rejects an empty request.
- **Quantities are not validated.** A negative quantity passes the check `stock < quantity`, raises the stock, and gives a negative line amount (`NegativeQuantityRaisesStock`). The quantity is a Java `int`, and stock is taken to be one too, so with quantity −2³¹ the subtraction on an empty stock wraps around and saves a negative stock (`QuantityOverflowMakesStockNegative`). "Stock never goes below zero" is therefore proved for non-negative quantities (`StockStaysNonNegative`).
- **Refusals do not surface as 403.** The cancel and invoice refusals are plain `RuntimeException`s, so the handler answers 500. Too little stock is an `IllegalArgumentException` and gives 400 (`RefusalStatusCodes`).
- **Duplicate email gets 400.** Registering a taken email answers 400 "Email already registered" directly, not with a conflict status.
- **Cancelling restores no stock**, and an admin cannot cancel another user's order. An admin can download that order's invoice (`AdminMayReadButNotCancel`).
- **Admin status updates are unguarded.** They accept any value, so an admin can move a DELIVERED order back to PLACED, and its owner can then cancel it (`StatusOverwriteReopensCancellation`).

Prices and totals are `double` in the source. Here they are integers (cents), so that "total equals the sum of the lines" holds exactly. Clock readings (`LocalDateTime.now()`) are an integer parameter `now`. The password encoder is a function parameter `encode`.

## Model

| member | source | states |
|---|---|---|
| Common.Wrap32 | bookstore-backend/src/main/java/com/bookstore/controller/OrderController.java:75 | Java `int` arithmetic: a result in range is unchanged; otherwise it is congruent to the true value modulo 2³² |
| Common.NatString | bookstore-backend/src/main/java/com/bookstore/controller/OrderController.java:67 | the id printed into a not-found message is a non-empty run of decimal digits, without a leading zero, whose value is the id |
| Common.Sub32 | bookstore-backend/src/main/java/com/bookstore/controller/OrderController.java:75 | Java `int` subtraction: the true difference when it fits in an `int`, otherwise the `int` congruent to it modulo 2³² |
| Common.LongString | bookstore-backend/src/main/java/com/bookstore/controller/OrderController.java:67 | the printed id: for a non-negative id, digits whose value is the id; for a negative one, a minus sign followed by the digits of its magnitude; no leading zero in either case |
| Common.NotFoundMessagesDistinct | bookstore-backend/src/main/java/com/bookstore/controller/BookController.java:72 | distinct ids give distinct "Book not found" and "Order not found" messages, so a message identifies the id it was raised for |
| Entities.TotalAppend | bookstore-backend/src/main/java/com/bookstore/controller/OrderController.java:60-89 | adding a line at the end adds price × quantity, so the running `totalAmount` is the sum over the collected lines |
| Entities.Total | bookstore-backend/src/main/java/com/bookstore/controller/OrderController.java:85-89 | the order total, the sum of price × quantity over the lines, is never negative while every price and quantity is non-negative |
| GlobalExceptionHandler.Handle | bookstore-backend/src/main/java/com/bookstore/exception/GlobalExceptionHandler.java:13-52 | not found → 404 "Not Found"; illegal argument → 400 "Bad Request"; every other exception → 500 "Internal Server Error"; the message passes through unchanged |
| GlobalExceptionHandler.HandleNeverForbidden | bookstore-backend/src/main/java/com/bookstore/exception/GlobalExceptionHandler.java:13-52 | every response is 400, 404 or 500, never 401 or 403 |
| OrderWorkflow.Step | bookstore-backend/src/main/java/com/bookstore/controller/OrderController.java:65-86 | one loop iteration keeps the catalog's book ids; a failing item changes no book; a passing item names a stored book whose stock covers the quantity and appends exactly one line, keeping the earlier ones |
| OrderWorkflow.Run | bookstore-backend/src/main/java/com/bookstore/controller/OrderController.java:63-87 | the loop over the request keeps the catalog's book ids, and when it completes it has collected one line per request item |
| OrderWorkflow.AbortIsFinal | bookstore-backend/src/main/java/com/bookstore/controller/OrderController.java:63-72 | once an item has thrown, the items after it have no effect: the outcome is the outcome at the failing item |
| OrderWorkflow.OnlyStockChanges | bookstore-backend/src/main/java/com/bookstore/controller/OrderController.java:74-76 | placement, whether it succeeds or fails, keeps the same book ids and changes no field except `stock` |
| OrderWorkflow.LinesFollowRequest | bookstore-backend/src/main/java/com/bookstore/controller/OrderController.java:79-86 | a successful placement has one line per request item, in request order, with that item's book id and quantity and the book's current price |
| OrderWorkflow.StockAccounting | bookstore-backend/src/main/java/com/bookstore/controller/OrderController.java:74-76 | with non-negative quantities, each book's final stock is its starting stock minus the total the request asked of it |
| OrderWorkflow.StockStaysNonNegative | bookstore-backend/src/main/java/com/bookstore/controller/OrderController.java:69-76 | with non-negative quantities, a book's stock either stays as it was or becomes non-negative, whether the request succeeds or fails part-way |
| OrderWorkflow.FailureAtItem | bookstore-backend/src/main/java/com/bookstore/controller/OrderController.java:63-76 | a failed placement failed at some item k. All earlier items passed, and their decrements remain in the catalog. Item k named a missing book (not found) or asked for more than the stock at that moment (illegal argument, naming the title) |
| OrderWorkflow.EmptyRequestPasses | bookstore-backend/src/main/java/com/bookstore/controller/OrderController.java:63-89 | an empty request passes with no lines and a total of 0 |
| OrderWorkflow.OrderThenReorder | bookstore-backend/src/main/java/com/bookstore/controller/OrderController.java:63-89 | with stock 5 and price 1000, ordering 3 costs 3000 and leaves 2; ordering 3 more is then refused for lack of stock and the stock stays 2 |
| OrderWorkflow.PartialDecrementPersists | bookstore-backend/src/main/java/com/bookstore/controller/OrderController.java:63-76 | when the second item names a missing book, the first item's decrement stays saved |
| OrderWorkflow.NegativeQuantityRaisesStock | bookstore-backend/src/main/java/com/bookstore/controller/OrderController.java:69-75 | a quantity of −3 passes the check, raises the stock from 5 to 8, and makes the line amount −3000 |
| OrderWorkflow.QuantityOverflowMakesStockNegative | bookstore-backend/src/main/java/com/bookstore/controller/OrderController.java:69-75 | a quantity of −2³¹ on an empty stock passes the check, and the `int` subtraction wraps the saved stock to −2³¹ |
| OrderController.PlaceOrder | bookstore-backend/src/main/java/com/bookstore/controller/OrderController.java:43-97 | without authentication, fails before touching any book or order. Otherwise the catalog ends as `Run` gives it. A failure returns the failing item's exception and stores no order. On success exactly one new order is stored under a fresh id: owned by the caller, PLACED, PENDING, dated `now`, with the collected lines and their sum as total |
| OrderController.GetMyOrders | bookstore-backend/src/main/java/com/bookstore/controller/OrderController.java:100-112 | without authentication, fails; otherwise returns exactly the stored orders whose `userEmail` is the caller's name, unchanged |
| OrderController.OrdersOf | bookstore-backend/src/main/java/com/bookstore/controller/OrderController.java:109 | `findByUserEmail`: exactly the stored orders whose `userEmail` is the given email, each unchanged |
| OrderController.PlacedOrderListedForOwnerOnly | bookstore-backend/src/main/java/com/bookstore/controller/OrderController.java:107-109 | storing a new order adds it to its owner's list and leaves every other user's list unchanged |
| OrderController.UpdateOrderStatus | bookstore-backend/src/main/java/com/bookstore/controller/OrderController.java:115-128 | any status is accepted and overwrites only the status field; an unknown id fails with not found and changes nothing |
| OrderController.UpdatePaymentStatus | bookstore-backend/src/main/java/com/bookstore/controller/OrderController.java:131-144 | any payment status is accepted and overwrites only that field; an unknown id fails with not found and changes nothing |
| OrderController.StatusUpdateKeepsOwnerLists | bookstore-backend/src/main/java/com/bookstore/controller/OrderController.java:121-143 | an overwrite that keeps the owner never moves an order between users' lists |
| OrderController.IsAdmin | bookstore-backend/src/main/java/com/bookstore/controller/OrderController.java:163-165 | the caller is an admin exactly when some authority in the list is "ROLE_ADMIN" |
| OrderController.InvoiceAccess | bookstore-backend/src/main/java/com/bookstore/controller/OrderController.java:153-170 | the order reaches the renderer exactly when the caller is authenticated, the order exists, and the caller owns it or holds ROLE_ADMIN; an unknown id fails with not found |
| OrderController.CancelOutcome | bookstore-backend/src/main/java/com/bookstore/controller/OrderController.java:219-238 | a success names a stored order and is that order with status CANCELLED; for an authenticated caller an unknown id is not found, and ownership is checked before the status |
| OrderController.CancelOrder | bookstore-backend/src/main/java/com/bookstore/controller/OrderController.java:214-241 | result is `CancelOutcome` of the orders before the call. The order is saved only on success, and only the order store is touched, so no stock is restored |
| OrderController.CancelSucceedsExactly | bookstore-backend/src/main/java/com/bookstore/controller/OrderController.java:223-240 | cancellation succeeds exactly for the owner of an order that is neither SHIPPED nor DELIVERED, and then changes only the status, to CANCELLED |
| OrderController.CancelIsIdempotent | bookstore-backend/src/main/java/com/bookstore/controller/OrderController.java:233-238 | a cancelled order may be cancelled again by its owner, with the same result |
| OrderController.AdminMayReadButNotCancel | bookstore-backend/src/main/java/com/bookstore/controller/OrderController.java:163-240 | an admin who does not own an order is granted its invoice but refused its cancellation with "Access denied" |
| OrderController.StatusOverwriteReopensCancellation | bookstore-backend/src/main/java/com/bookstore/controller/OrderController.java:121-238 | the owner cannot cancel a DELIVERED order; after the admin overwrite sets it to PLACED, the owner can |
| OrderController.RefusalStatusCodes | bookstore-backend/src/main/java/com/bookstore/controller/OrderController.java:65-235 | for an authenticated caller, through the handler: cancel and invoice refusals on an existing order are 500, a missing order is 404, and a placement that fails in the item loop is 400 or 404, never 500 |
| BookController.AddBook | bookstore-backend/src/main/java/com/bookstore/controller/BookController.java:23-27 | the book is stored as sent, under a fresh id, and nothing else changes |
| BookController.GetBookById | bookstore-backend/src/main/java/com/bookstore/controller/BookController.java:67-75 | returns the stored book, or fails with not found for a missing id; the catalog is not modified |
| BookController.UpdateBook | bookstore-backend/src/main/java/com/bookstore/controller/BookController.java:78-94 | an existing book takes the request's title, author, genre, price and stock and keeps its id; a missing id fails with not found and changes nothing |
| BookController.DeleteBook | bookstore-backend/src/main/java/com/bookstore/controller/BookController.java:97-108 | after success the id is absent and every other book is unchanged; a missing id fails with not found and changes nothing |
| BookController.SortDirection | bookstore-backend/src/main/java/com/bookstore/controller/BookController.java:37-39 | "desc" and "DESC" sort descending, "asc" sorts ascending, and only a four-letter word can sort descending |
| BookController.ListingRequest | bookstore-backend/src/main/java/com/bookstore/controller/BookController.java:32-41 | a query parameter sent with a value is used as sent; one that is absent or sent empty takes its default: page 0, size 5, sort by "id", ascending; so the sort field is never empty |
| BookController.DescendingExactly | bookstore-backend/src/main/java/com/bookstore/controller/BookController.java:37-39 | the sort is descending exactly when the direction is "desc" in any mix of upper and lower case; "asc" and every other word give ascending |
| BookController.DefaultListing | bookstore-backend/src/main/java/com/bookstore/controller/BookController.java:32-41 | with no parameters the request is page 0, size 5, ascending by "id" |
| BookController.SearchByTitle | bookstore-backend/src/main/java/com/bookstore/controller/BookController.java:49-52 | exactly the catalog's books whose title contains the query ignoring case, each unchanged |
| BookController.SearchByAuthor | bookstore-backend/src/main/java/com/bookstore/controller/BookController.java:55-58 | exactly the catalog's books whose author contains the query ignoring case, each unchanged |
| BookController.SearchByGenre | bookstore-backend/src/main/java/com/bookstore/controller/BookController.java:61-64 | exactly the catalog's books whose genre equals the query ignoring case, each unchanged |
| BookController.SearchesFindVerbatimMatches | bookstore-backend/src/main/java/com/bookstore/controller/BookController.java:49-64 | a book whose title or author contains the query verbatim is found by that search, and every book is found by its own genre |
| BookController.SearchesIgnoreQueryCase | bookstore-backend/src/main/java/com/bookstore/controller/BookController.java:49-64 | the case of the query never changes the result of any of the three searches |
| BookController.EmptyQueryMatchesAll | bookstore-backend/src/main/java/com/bookstore/controller/BookController.java:49-58 | an empty title or author query returns the whole catalog |
| BookController.GenreSearchIsWholeField | bookstore-backend/src/main/java/com/bookstore/controller/BookController.java:61-64 | the genre search matches the whole field: every result has a genre of the query's length that contains the query, ignoring case |
| AuthController.EmailTaken | bookstore-backend/src/main/java/com/bookstore/controller/AuthController.java:39 | `findByEmail(email).isPresent()`: the email is among the stored accounts' emails |
| AuthController.Register | bookstore-backend/src/main/java/com/bookstore/controller/AuthController.java:35-51 | a taken email answers 400 "Email already registered" and saves nothing. Otherwise exactly one account is added under a fresh id, with the encoder's output in place of the raw password, and the answer is 200 "User registered successfully". Emails stay unique |
| AuthController.OneRecordPerEmail | bookstore-backend/src/main/java/com/bookstore/controller/AuthController.java:39-42 | with unique emails, a stored email has exactly one record and any other email none |
| AuthController.RegistrationAddsExactlyOne | bookstore-backend/src/main/java/com/bookstore/controller/AuthController.java:45-48 | storing a new email under a fresh id gives it exactly one record, leaves other emails' records alone, and keeps emails unique |
| AuthController.RegisterTwice | bookstore-backend/src/main/java/com/bookstore/controller/AuthController.java:39-50 | registering one email twice in a row: the second call is refused, and exactly one account with that email remains |

## Left out

- `StockStaysNonNegative` and `StockAccounting` are stated for non-negative quantities only. The source does not check the sign of a quantity: negative quantities raise the stock, and −2³¹ wraps it negative (both shown by lemmas).
- The `@PreAuthorize("hasRole('ADMIN')")` guards on the catalog mutations and the status updates are not modelled. Neither are the URL rules and JWT filter of `SecurityConfig`. These are framework configuration, not controller code, so in the model any caller may invoke those operations. Only the checks the controllers perform themselves are modelled. Spring Security normally rejects an unauthenticated `/orders` request before the controller runs.
- `AuthController.login` is not modelled: it delegates to the authentication manager, the JWT utility and the user-details service, none of which is part of this model.
- The PDF rendering in `downloadInvoice` and `InvoiceService` are not modelled. They call a PDF library, and their output depends on `toString` of dates and doubles. `InvoiceAccess` models the checks in front of the rendering. The "Error generating invoice" path is not modelled.
- `BookController.ListingRequest` does not model the check in `Sort.by` that rejects a sort field without any non-blank character: a `sortBy` of spaces makes line 38 or 39 throw an `IllegalArgumentException` (answered 400), where the model returns a request with that field.
- Paging and sorting inside `findAll(pageable)`, and the validation `PageRequest.of` does, belong to Spring Data. `ListingRequest` models only the request the controller builds. An unknown `sortBy` fails inside Spring Data.
- The order of the lists that `findByUserEmail` and the three search queries return is chosen by the database. `GetMyOrders`, `SearchByTitle`, `SearchByAuthor` and `SearchByGenre` return the selected records keyed by id, as maps.
- `BookController.SortDirection`, `DescendingExactly`, `SearchByTitle`, `SearchByAuthor`, `SearchByGenre` and `SearchesIgnoreQueryCase` fold ASCII letters only. Java's `equalsIgnoreCase` and the database's `UPPER` also fold other letters: in Java `"deſc".equalsIgnoreCase("desc")` holds, because U+017F (long s) upper-cases to 'S', so line 37 sorts that word descending while `SortDirection` gives `Ascending`. The searches' `LIKE` escaping is the repository's.
- Floating-point prices and totals are modelled as integer cents, so `double` rounding is not modelled.
- Concurrency is not modelled: two placements racing on one book, and the database's isolation.
- Null values are not modelled: a null item list, a null book id and null titles.
- An id sent in the body of `addBook` or `register` is not modelled. JPA's `save` would merge on it; the model always assigns a fresh id.
- The id of each `OrderItem` and its back-reference to the order are not modelled. The order owns its lines as a sequence.
- The entity classes and the two status enums are modelled on these assumptions: stock is a Java `int`, like the quantity; there are four order statuses (PLACED, SHIPPED, DELIVERED, CANCELLED); the payment statuses other than PENDING (PAID, FAILED) are stand-ins; users carry an email, a password and a role, and `register` stores the role as sent.
