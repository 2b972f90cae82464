/** What the placeOrder loop does to the catalog, as a function of the catalog
    it starts from and the request items, and what that guarantees. */
module OrderWorkflow {
  import opened Common
  import opened Entities

  /** Where the loop ends up: every item passed, giving the catalog and the
      collected lines; or one item failed, giving the catalog as it stood at
      that moment (the earlier items' saves included) and the exception. */
  datatype Placement =
    | Done(books: map<int, Book>, items: seq<OrderItem>)
    | Aborted(books: map<int, Book>, error: Exception)

  predicate KeyedById(books: map<int, Book>) {
    forall id :: id in books ==> books[id].id == id
  }

  /** One iteration of the loop: look the book up, compare the stock with the
      quantity, save the decremented book and add a line with its price. */
  function Step(books: map<int, Book>, items: seq<OrderItem>, q: OrderItemRequest): (r: Placement)
    ensures r.books.Keys == books.Keys
    ensures r.Aborted? ==> r.books == books
    ensures r.Done? ==>
      && q.bookId in books && q.quantity <= books[q.bookId].stock
      && |r.items| == |items| + 1 && r.items[..|items|] == items
  {
    if q.bookId !in books then
      Aborted(books, BookNotFound(q.bookId))
    else
      var book := books[q.bookId];
      if book.stock < q.quantity then
        Aborted(books, NotEnoughStock(book.title))
      else
        var saved := book.(stock := Sub32(book.stock, q.quantity));
        Done(books[q.bookId := saved], items + [OrderItem(book.id, q.quantity, book.price)])
  }

  /** The loop over the request items, in request order, stopping at the
      first failure. Defined on prefixes so that it reads as the loop runs. */
  function Run(books: map<int, Book>, reqs: seq<OrderItemRequest>): (r: Placement)
    ensures r.books.Keys == books.Keys
    ensures r.Done? ==> |r.items| == |reqs|
    decreases |reqs|
  {
    if reqs == [] then Done(books, [])
    else
      match Run(books, reqs[..|reqs| - 1])
      case Aborted(bs, e) => Aborted(bs, e)
      case Done(bs, items) => Step(bs, items, reqs[|reqs| - 1])
  }

  /** Total quantity the request asks of one book. */
  function Requested(reqs: seq<OrderItemRequest>, id: int): int
    decreases |reqs|
  {
    if reqs == [] then 0
    else
      var last := reqs[|reqs| - 1];
      Requested(reqs[..|reqs| - 1], id) + (if last.bookId == id then last.quantity as int else 0)
  }

  predicate NonNegativeQuantities(reqs: seq<OrderItemRequest>) {
    forall k :: 0 <= k < |reqs| ==> reqs[k].quantity >= 0
  }

  /** Once an item has failed, the later items change nothing: the outcome of
      the whole request is the outcome at the failing item. */
  lemma {:induction false} AbortIsFinal(books: map<int, Book>, reqs: seq<OrderItemRequest>, k: nat)
    requires k <= |reqs| && Run(books, reqs[..k]).Aborted?
    ensures Run(books, reqs) == Run(books, reqs[..k])
    decreases |reqs|
  {
    if k == |reqs| {
      assert reqs[..k] == reqs;
    } else {
      var prefix := reqs[..|reqs| - 1];
      assert prefix[..k] == reqs[..k];
      AbortIsFinal(books, prefix, k);
    }
  }

  /** Placement only ever rewrites the stock field: the same ids stay in the
      catalog, and titles, authors, genres and prices are untouched, whether
      the request succeeds or fails. */
  lemma {:induction false} OnlyStockChanges(books: map<int, Book>, reqs: seq<OrderItemRequest>)
    ensures Run(books, reqs).books.Keys == books.Keys
    ensures forall id :: id in books ==>
      Run(books, reqs).books[id] == books[id].(stock := Run(books, reqs).books[id].stock)
    decreases |reqs|
  {
    if reqs != [] {
      OnlyStockChanges(books, reqs[..|reqs| - 1]);
    }
  }

  /** A successful placement has one line per request item, in request order,
      carrying the requested book's id, the requested quantity and that
      book's price. */
  lemma {:induction false} LinesFollowRequest(books: map<int, Book>, reqs: seq<OrderItemRequest>)
    requires KeyedById(books)
    requires Run(books, reqs).Done?
    ensures |Run(books, reqs).items| == |reqs|
    ensures forall k :: 0 <= k < |reqs| ==>
      && reqs[k].bookId in books
      && Run(books, reqs).items[k] == OrderItem(reqs[k].bookId, reqs[k].quantity, books[reqs[k].bookId].price)
    decreases |reqs|
  {
    if reqs != [] {
      var n := |reqs|;
      var prefix := reqs[..n - 1];
      var p := Run(books, prefix);
      LinesFollowRequest(books, prefix);
      OnlyStockChanges(books, prefix);
      forall k | 0 <= k < n - 1
        ensures reqs[k] == prefix[k]
      {
      }
    }
  }

  /** With quantities that are not negative, each book's final stock is its
      starting stock minus everything the request asked of it. */
  lemma {:induction false} StockAccounting(books: map<int, Book>, reqs: seq<OrderItemRequest>)
    requires NonNegativeQuantities(reqs)
    requires Run(books, reqs).Done?
    ensures Run(books, reqs).books.Keys == books.Keys
    ensures forall id :: id in books ==>
      Run(books, reqs).books[id].stock as int == books[id].stock as int - Requested(reqs, id)
    decreases |reqs|
  {
    if reqs != [] {
      var prefix := reqs[..|reqs| - 1];
      assert NonNegativeQuantities(prefix) by {
        forall k | 0 <= k < |prefix| ensures prefix[k].quantity >= 0 {
          assert prefix[k] == reqs[k];
        }
      }
      StockAccounting(books, prefix);
      OnlyStockChanges(books, prefix);
    }
  }

  /** With quantities that are not negative, a stock only ever changes to a
      value that is not negative: a book either keeps its stock or ends at
      zero or above. In particular, a catalog without negative stock keeps
      none, whether the request succeeds or fails part-way. */
  lemma {:induction false} StockStaysNonNegative(books: map<int, Book>, reqs: seq<OrderItemRequest>)
    requires NonNegativeQuantities(reqs)
    ensures Run(books, reqs).books.Keys == books.Keys
    ensures forall id :: id in books ==>
      Run(books, reqs).books[id].stock == books[id].stock || Run(books, reqs).books[id].stock >= 0
    decreases |reqs|
  {
    OnlyStockChanges(books, reqs);
    if reqs != [] {
      var prefix := reqs[..|reqs| - 1];
      assert NonNegativeQuantities(prefix) by {
        forall k | 0 <= k < |prefix| ensures prefix[k].quantity >= 0 {
          assert prefix[k] == reqs[k];
        }
      }
      StockStaysNonNegative(books, prefix);
      assert reqs[|reqs| - 1].quantity >= 0;
    }
  }

  /** A failed placement failed at some item k: items before k all passed and
      their stock decrements are in the catalog that is left, and item k
      either named a missing book (not found) or asked for more than that
      book's stock at that moment (illegal argument). Nothing is rolled back. */
  lemma {:induction false} FailureAtItem(books: map<int, Book>, reqs: seq<OrderItemRequest>) returns (k: nat)
    requires Run(books, reqs).Aborted?
    ensures k < |reqs|
    ensures Run(books, reqs[..k]).Done?
    ensures Run(books, reqs).books == Run(books, reqs[..k]).books
    ensures reqs[k].bookId !in Run(books, reqs).books ==>
      Run(books, reqs).error == BookNotFound(reqs[k].bookId)
    ensures reqs[k].bookId in Run(books, reqs).books ==>
      && Run(books, reqs).books[reqs[k].bookId].stock < reqs[k].quantity
      && Run(books, reqs).error == NotEnoughStock(Run(books, reqs).books[reqs[k].bookId].title)
    decreases |reqs|
  {
    var n := |reqs|;
    var prefix := reqs[..n - 1];
    if Run(books, prefix).Aborted? {
      k := FailureAtItem(books, prefix);
      assert prefix[..k] == reqs[..k];
      assert prefix[k] == reqs[k];
    } else {
      k := n - 1;
    }
  }

  /** An empty request passes: nothing is checked, and the order placed has
      no lines. */
  lemma EmptyRequestPasses(books: map<int, Book>)
    ensures Run(books, []) == Done(books, [])
    ensures Total(Run(books, []).items) == 0
  {
  }

  // Worked examples on a one-book catalog: book 1 costs 1000 cents.

  function SampleBook(stock: int32): Book {
    Book(1, "Dune", "Herbert", "SF", 1000, stock)
  }

  /** Five in stock: ordering three leaves two and costs 3000; ordering three
      more is then refused and the two stay. */
  lemma OrderThenReorder()
    ensures Run(map[1 := SampleBook(5)], [OrderItemRequest(1, 3)])
         == Done(map[1 := SampleBook(2)], [OrderItem(1, 3, 1000)])
    ensures Total([OrderItem(1, 3, 1000)]) == 3000
    ensures Run(map[1 := SampleBook(2)], [OrderItemRequest(1, 3)])
         == Aborted(map[1 := SampleBook(2)], NotEnoughStock("Dune"))
  {
  }

  /** The first item passes and is saved; the second names a missing book.
      The request fails, and the first decrement stays in the catalog. */
  lemma PartialDecrementPersists()
    ensures Run(map[1 := SampleBook(5)], [OrderItemRequest(1, 2), OrderItemRequest(2, 1)])
         == Aborted(map[1 := SampleBook(3)], BookNotFound(2))
  {
  }

  /** Nothing checks the sign of a quantity: a negative one passes the stock
      check, raises the stock and makes the line's amount negative. */
  lemma NegativeQuantityRaisesStock()
    ensures Run(map[1 := SampleBook(5)], [OrderItemRequest(1, -3)])
         == Done(map[1 := SampleBook(8)], [OrderItem(1, -3, 1000)])
    ensures Total([OrderItem(1, -3, 1000)]) == -3000
  {
  }

  /** The smallest `int` quantity passes the check on an empty stock, and
      0 - (-2^31) wraps round to -2^31: the saved stock is negative. */
  lemma QuantityOverflowMakesStockNegative()
    ensures Run(map[1 := SampleBook(0)], [OrderItemRequest(1, -0x8000_0000)])
         == Done(map[1 := SampleBook(-0x8000_0000)], [OrderItem(1, -0x8000_0000, 1000)])
  {
  }
}
