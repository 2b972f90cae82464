/** The three keyed stores the controllers use. Each keeps its records in a
    map from id to record and hands out fresh ids from a counter, as the
    database's identity column does. */
module Repositories {
  import opened Common
  import opened Entities

  class BookRepository {
    var books: map<int, Book>
    var nextId: int

    /** An empty table whose identity column starts at 1. */
    constructor()
      ensures Valid() && books == map[] && nextId == 1
    {
      books := map[];
      nextId := 1;
    }

    /** Every book is stored under its own id, and every id used so far is
        below `nextId`. */
    ghost predicate Valid()
      reads this
    {
      forall id :: id in books ==> books[id].id == id && id < nextId
    }
  }

  class OrderRepository {
    var orders: map<int, Order>
    var nextId: int

    /** An empty table whose identity column starts at 1. */
    constructor()
      ensures Valid() && orders == map[] && nextId == 1
    {
      orders := map[];
      nextId := 1;
    }

    /** Ids as for books; and every stored order's total is the sum of its
        lines, since nothing after placement rewrites either. */
    ghost predicate Valid()
      reads this
    {
      forall id :: id in orders ==>
        orders[id].id == id && id < nextId && orders[id].totalAmount == Total(orders[id].orderItems)
    }
  }

  class UserRepository {
    var users: map<int, User>
    var nextId: int

    /** An empty table whose identity column starts at 1. */
    constructor()
      ensures Valid() && users == map[] && nextId == 1
    {
      users := map[];
      nextId := 1;
    }

    /** Ids as for books; and no two accounts share an email. */
    ghost predicate Valid()
      reads this
    {
      && (forall id :: id in users ==> users[id].id == id && id < nextId)
      && EmailsUnique(users)
    }
  }

  ghost predicate EmailsUnique(users: map<int, User>) {
    forall i, j :: i in users && j in users && users[i].email == users[j].email ==> i == j
  }
}
