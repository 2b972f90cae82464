/** The records the controllers read and write: books, users, orders and
    their line items, the order request, and the caller's authentication. */
module Entities {
  import opened Common

  datatype Role = Customer | Admin

  datatype OrderStatus = Placed | Shipped | Delivered | Cancelled

  /** Only PENDING is named by the controllers; the other two stand in for the
      rest of the enum, which an admin may set through updatePaymentStatus. */
  datatype PaymentStatus = Pending | Paid | Failed

  /** A catalog entry. `price` is in cents; `stock` is a Java `int`. */
  datatype Book = Book(id: int, title: string, author: string, genre: string, price: int, stock: int32)

  /** An account; `password` holds the encoder's output. */
  datatype User = User(id: int, email: string, password: string, role: Role)

  /** One line of an order: the book's id, the quantity and the unit price
      (in cents) copied from the book when the order was placed. */
  datatype OrderItem = OrderItem(bookId: int, quantity: int32, price: int)

  /** A placed order. `orderDate` is the clock reading taken at placement;
      the order owns its line items. */
  datatype Order = Order(
    id: int,
    userEmail: string,
    totalAmount: int,
    orderDate: int,
    paymentStatus: PaymentStatus,
    orderStatus: OrderStatus,
    orderItems: seq<OrderItem>)

  /** One `{bookId, quantity}` entry of the body of `POST /orders`. */
  datatype OrderItemRequest = OrderItemRequest(bookId: int, quantity: int32)

  /** The authenticated caller: a name (the email) and granted authorities. */
  datatype Authentication = Authentication(name: string, authorities: seq<string>)

  /** The amount a line contributes to an order's total. */
  function LineAmount(item: OrderItem): int {
    item.price * item.quantity as int
  }

  /** Sum of price times quantity over the lines; it cannot be negative
      while no line has a negative price or quantity. */
  function Total(items: seq<OrderItem>): (r: int)
    ensures (forall k :: 0 <= k < |items| ==> items[k].price >= 0 && items[k].quantity >= 0) ==> r >= 0
  {
    if items == [] then 0 else LineAmount(items[0]) + Total(items[1..])
  }

  /** Adding a line at the end adds its amount: the running total that
      placeOrder accumulates item by item is the sum over the lines. */
  lemma {:induction false} TotalAppend(items: seq<OrderItem>, item: OrderItem)
    ensures Total(items + [item]) == Total(items) + LineAmount(item)
  {
    if items == [] {
      assert items + [item] == [item];
    } else {
      assert (items + [item])[1..] == items[1..] + [item];
      TotalAppend(items[1..], item);
    }
  }
}
