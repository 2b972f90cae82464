/** The `/orders` endpoints: placing an order against the catalog, listing
    the caller's orders, the two admin status overwrites, cancellation by the
    owner, and the access check in front of the invoice download. */
module OrderController {
  import opened Common
  import opened Entities
  import opened Repositories
  import opened OrderWorkflow
  import opened GlobalExceptionHandler

  datatype OrderResponse = OrderResponse(orderId: int, message: string)

  const InvoiceDenied: Exception := Runtime("Access Denied: You cannot download this invoice")
  const CancelDenied: Exception := Runtime("Access denied")
  const CannotCancel: Exception := Runtime("Cannot cancel shipped/delivered order")

  /** `POST /orders`. Without authentication nothing is touched. Otherwise
      the items are processed in request order as `Run` describes, each
      passing item's book being saved at once; the first failing item ends
      the call with its exception and the catalog keeps the earlier saves.
      When every item passes, one new order is stored, owned by the caller,
      PLACED and PENDING, with the collected lines and their sum as total. */
  method PlaceOrder(orderRepo: OrderRepository, bookRepo: BookRepository,
                    request: seq<OrderItemRequest>, auth: Option<Authentication>, now: int)
    returns (r: Result<OrderResponse>)
    requires orderRepo.Valid() && bookRepo.Valid()
    modifies orderRepo, bookRepo
    ensures orderRepo.Valid() && bookRepo.Valid()
    ensures bookRepo.nextId == old(bookRepo.nextId)
    ensures auth.None? ==>
      && r == Failure(NotAuthenticated)
      && bookRepo.books == old(bookRepo.books)
      && orderRepo.orders == old(orderRepo.orders) && orderRepo.nextId == old(orderRepo.nextId)
    ensures auth.Some? && Run(old(bookRepo.books), request).Aborted? ==>
      && r == Failure(Run(old(bookRepo.books), request).error)
      && bookRepo.books == Run(old(bookRepo.books), request).books
      && orderRepo.orders == old(orderRepo.orders) && orderRepo.nextId == old(orderRepo.nextId)
    ensures auth.Some? && Run(old(bookRepo.books), request).Done? ==>
      && r.Success?
      && r.value.message == "Order placed successfully"
      && r.value.orderId !in old(orderRepo.orders)
      && bookRepo.books == Run(old(bookRepo.books), request).books
      && var items := Run(old(bookRepo.books), request).items;
         orderRepo.orders == old(orderRepo.orders)[r.value.orderId :=
           Order(r.value.orderId, auth.value.name, Total(items), now, Pending, Placed, items)]
  {
    if auth.None? {
      return Failure(NotAuthenticated);
    }
    var userEmail := auth.value.name;

    var totalAmount := 0;
    var orderItems: seq<OrderItem> := [];
    var i := 0;
    while i < |request|
      invariant 0 <= i <= |request|
      invariant bookRepo.Valid() && bookRepo.nextId == old(bookRepo.nextId)
      invariant Run(old(bookRepo.books), request[..i]) == Done(bookRepo.books, orderItems)
      invariant totalAmount == Total(orderItems)
      invariant orderRepo.orders == old(orderRepo.orders) && orderRepo.nextId == old(orderRepo.nextId)
    {
      var item := request[i];
      assert request[..i + 1][..i] == request[..i];
      if item.bookId !in bookRepo.books {
        AbortIsFinal(old(bookRepo.books), request, i + 1);
        return Failure(BookNotFound(item.bookId));
      }
      var book := bookRepo.books[item.bookId];
      if book.stock < item.quantity {
        AbortIsFinal(old(bookRepo.books), request, i + 1);
        return Failure(NotEnoughStock(book.title));
      }

      // reduce the stock and save the book straight away
      book := book.(stock := Sub32(book.stock, item.quantity));
      bookRepo.books := bookRepo.books[book.id := book];

      var orderItem := OrderItem(book.id, item.quantity, book.price);
      TotalAppend(orderItems, orderItem);
      totalAmount := totalAmount + book.price * item.quantity as int;
      orderItems := orderItems + [orderItem];
      i := i + 1;
    }
    assert request[..i] == request;

    var id := orderRepo.nextId;
    orderRepo.orders := orderRepo.orders[id := Order(id, userEmail, totalAmount, now, Pending, Placed, orderItems)];
    orderRepo.nextId := id + 1;
    r := Success(OrderResponse(id, "Order placed successfully"));
  }

  /** The orders whose owner is `email`, by id. */
  function OrdersOf(orders: map<int, Order>, email: string): (r: map<int, Order>)
    ensures r.Keys <= orders.Keys
    ensures forall id :: id in r ==> r[id] == orders[id] && r[id].userEmail == email
    ensures forall id :: id in orders && orders[id].userEmail == email ==> id in r
  {
    map id | id in orders && orders[id].userEmail == email :: orders[id]
  }

  /** `GET /orders/my`: exactly the stored orders owned by the caller. */
  method GetMyOrders(orderRepo: OrderRepository, auth: Option<Authentication>)
    returns (r: Result<map<int, Order>>)
    ensures auth.None? ==> r == Failure(NotAuthenticated)
    ensures auth.Some? ==> r.Success?
    ensures auth.Some? ==> forall id :: id in r.value <==>
      id in orderRepo.orders && orderRepo.orders[id].userEmail == auth.value.name
    ensures auth.Some? ==> forall id :: id in r.value ==> r.value[id] == orderRepo.orders[id]
  {
    if auth.None? {
      return Failure(NotAuthenticated);
    }
    r := Success(OrdersOf(orderRepo.orders, auth.value.name));
  }

  /** A placement shows up in its owner's list and in nobody else's. */
  lemma PlacedOrderListedForOwnerOnly(orders: map<int, Order>, o: Order, email: string)
    requires o.id !in orders
    ensures OrdersOf(orders[o.id := o], email)
         == if email == o.userEmail then OrdersOf(orders, email)[o.id := o] else OrdersOf(orders, email)
  {
  }

  /** `PUT /orders/{id}/status`: any status is accepted and overwrites the
      order's status alone; an unknown id is not found. */
  method UpdateOrderStatus(orderRepo: OrderRepository, id: int, status: OrderStatus)
    returns (r: Result<Order>)
    requires orderRepo.Valid()
    modifies orderRepo
    ensures orderRepo.Valid() && orderRepo.nextId == old(orderRepo.nextId)
    ensures id !in old(orderRepo.orders) ==>
      r == Failure(OrderNotFound(id)) && orderRepo.orders == old(orderRepo.orders)
    ensures id in old(orderRepo.orders) ==>
      && r == Success(old(orderRepo.orders)[id].(orderStatus := status))
      && orderRepo.orders == old(orderRepo.orders)[id := r.value]
  {
    if id !in orderRepo.orders {
      return Failure(OrderNotFound(id));
    }
    var order := orderRepo.orders[id].(orderStatus := status);
    orderRepo.orders := orderRepo.orders[id := order];
    r := Success(order);
  }

  /** `PUT /orders/{id}/payment`: any payment status is accepted and
      overwrites that field alone; an unknown id is not found. */
  method UpdatePaymentStatus(orderRepo: OrderRepository, id: int, paymentStatus: PaymentStatus)
    returns (r: Result<Order>)
    requires orderRepo.Valid()
    modifies orderRepo
    ensures orderRepo.Valid() && orderRepo.nextId == old(orderRepo.nextId)
    ensures id !in old(orderRepo.orders) ==>
      r == Failure(OrderNotFound(id)) && orderRepo.orders == old(orderRepo.orders)
    ensures id in old(orderRepo.orders) ==>
      && r == Success(old(orderRepo.orders)[id].(paymentStatus := paymentStatus))
      && orderRepo.orders == old(orderRepo.orders)[id := r.value]
  {
    if id !in orderRepo.orders {
      return Failure(OrderNotFound(id));
    }
    var order := orderRepo.orders[id].(paymentStatus := paymentStatus);
    orderRepo.orders := orderRepo.orders[id := order];
    r := Success(order);
  }

  /** Overwriting an order's status or payment status never moves it between
      owners' lists. */
  lemma StatusUpdateKeepsOwnerLists(orders: map<int, Order>, id: int, updated: Order, email: string)
    requires id in orders && updated.userEmail == orders[id].userEmail
    ensures OrdersOf(orders[id := updated], email).Keys == OrdersOf(orders, email).Keys
  {
  }

  /** The caller holds the admin authority. */
  function IsAdmin(auth: Authentication): (b: bool)
    ensures b <==> exists k :: 0 <= k < |auth.authorities| && auth.authorities[k] == "ROLE_ADMIN"
  {
    "ROLE_ADMIN" in auth.authorities
  }

  /** The checks in front of the invoice download: the order is handed to the
      renderer exactly when the caller is authenticated, the order exists, and
      the caller owns it or is an admin. */
  function InvoiceAccess(orders: map<int, Order>, id: int, auth: Option<Authentication>): (r: Result<Order>)
    ensures r.Success? <==>
      auth.Some? && id in orders && (orders[id].userEmail == auth.value.name || IsAdmin(auth.value))
    ensures r.Success? ==> r.value == orders[id]
    ensures auth.Some? && id !in orders ==> r == Failure(OrderNotFound(id))
  {
    if auth.None? then Failure(NotAuthenticated)
    else if id !in orders then Failure(OrderNotFound(id))
    else if orders[id].userEmail != auth.value.name && !IsAdmin(auth.value) then Failure(InvoiceDenied)
    else Success(orders[id])
  }

  /** The checks of `PUT /orders/{id}/cancel` and the order they produce. */
  function CancelOutcome(orders: map<int, Order>, id: int, auth: Option<Authentication>): (r: Result<Order>)
    ensures r.Success? ==> auth.Some? && id in orders && r.value == orders[id].(orderStatus := Cancelled)
    ensures auth.Some? && id !in orders ==> r == Failure(OrderNotFound(id))
    ensures auth.Some? && id in orders && orders[id].userEmail != auth.value.name ==> r == Failure(CancelDenied)
  {
    if auth.None? then Failure(NotAuthenticated)
    else if id !in orders then Failure(OrderNotFound(id))
    else if orders[id].userEmail != auth.value.name then Failure(CancelDenied)
    else if orders[id].orderStatus == Shipped || orders[id].orderStatus == Delivered then Failure(CannotCancel)
    else Success(orders[id].(orderStatus := Cancelled))
  }

  /** `PUT /orders/{id}/cancel`: the checks of `CancelOutcome`, then the
      CANCELLED order is saved; on any failure nothing is saved. Only the
      order store is touched: no stock goes back to the catalog. */
  method CancelOrder(orderRepo: OrderRepository, id: int, auth: Option<Authentication>)
    returns (r: Result<Order>)
    requires orderRepo.Valid()
    modifies orderRepo
    ensures orderRepo.Valid() && orderRepo.nextId == old(orderRepo.nextId)
    ensures r == CancelOutcome(old(orderRepo.orders), id, auth)
    ensures orderRepo.orders == if r.Success? then old(orderRepo.orders)[id := r.value] else old(orderRepo.orders)
  {
    if auth.None? {
      return Failure(NotAuthenticated);
    }
    if id !in orderRepo.orders {
      return Failure(OrderNotFound(id));
    }
    var order := orderRepo.orders[id];
    if order.userEmail != auth.value.name {
      return Failure(CancelDenied);
    }
    if order.orderStatus == Shipped || order.orderStatus == Delivered {
      return Failure(CannotCancel);
    }
    order := order.(orderStatus := Cancelled);
    orderRepo.orders := orderRepo.orders[id := order];
    r := Success(order);
  }

  /** Cancellation succeeds exactly for the owner of an order that is neither
      shipped nor delivered, and then changes the status to CANCELLED and
      nothing else. */
  lemma CancelSucceedsExactly(orders: map<int, Order>, id: int, auth: Option<Authentication>)
    ensures CancelOutcome(orders, id, auth).Success? <==>
      && auth.Some? && id in orders
      && orders[id].userEmail == auth.value.name
      && orders[id].orderStatus !in {Shipped, Delivered}
    ensures CancelOutcome(orders, id, auth).Success? ==>
      CancelOutcome(orders, id, auth).value == orders[id].(orderStatus := Cancelled)
  {
  }

  /** Cancelling twice is harmless: a cancelled order may be cancelled again
      by its owner, with the same result. */
  lemma CancelIsIdempotent(orders: map<int, Order>, id: int, auth: Option<Authentication>)
    requires CancelOutcome(orders, id, auth).Success?
    ensures var o := CancelOutcome(orders, id, auth).value;
      CancelOutcome(orders[id := o], id, auth) == Success(o)
  {
  }

  /** An admin who does not own an order may download its invoice but may not
      cancel it: there is no admin override for cancellation. */
  lemma AdminMayReadButNotCancel(orders: map<int, Order>, id: int, admin: Authentication)
    requires id in orders && IsAdmin(admin) && orders[id].userEmail != admin.name
    ensures InvoiceAccess(orders, id, Some(admin)) == Success(orders[id])
    ensures CancelOutcome(orders, id, Some(admin)) == Failure(CancelDenied)
  {
  }

  /** The cancellation guard can be undone through the unconditional status
      overwrite: once an admin sets a delivered order back to PLACED, its
      owner may cancel it. */
  lemma StatusOverwriteReopensCancellation(orders: map<int, Order>, id: int, owner: Authentication)
    requires id in orders && orders[id].userEmail == owner.name && orders[id].orderStatus == Delivered
    ensures CancelOutcome(orders, id, Some(owner)) == Failure(CannotCancel)
    ensures CancelOutcome(orders[id := orders[id].(orderStatus := Placed)], id, Some(owner)).Success?
  {
  }

  /** How the workflow's refusals reach the client. A missing order is 404;
      refusing a non-owner or a shipped or delivered order is a plain runtime
      exception and so a 500, as is the invoice refusal; a failed placement is
      404 for a missing book and 400 for too little stock. */
  lemma {:induction false} RefusalStatusCodes(
    orders: map<int, Order>, books: map<int, Book>, reqs: seq<OrderItemRequest>,
    id: int, auth: Authentication, now: int)
    ensures CancelOutcome(orders, id, Some(auth)).Failure? ==>
      Handle(CancelOutcome(orders, id, Some(auth)).error, now).status == (if id in orders then 500 else 404)
    ensures InvoiceAccess(orders, id, Some(auth)).Failure? ==>
      Handle(InvoiceAccess(orders, id, Some(auth)).error, now).status == (if id in orders then 500 else 404)
    ensures Run(books, reqs).Aborted? ==>
      Handle(Run(books, reqs).error, now).status in {400, 404}
  {
    if Run(books, reqs).Aborted? {
      var k := FailureAtItem(books, reqs);
    }
  }
}
