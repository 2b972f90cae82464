/** Shared vocabulary: optional values, the exceptions the controllers throw,
    and Java's 32-bit `int` arithmetic. */
module Common {

  datatype Option<+T> = None | Some(value: T)

  /** The exception kinds the controllers throw. `GlobalExceptionHandler` tells
      them apart by class only, so every other exception is folded into `Runtime`. */
  datatype Exception =
    | ResourceNotFound(message: string)  // ResourceNotFoundException
    | IllegalArgument(message: string)   // IllegalArgumentException
    | Runtime(message: string)           // RuntimeException and every other Exception

  /** A controller call either returns a value or throws. */
  datatype Result<+T> = Success(value: T) | Failure(error: Exception)

  /** Java's `int`. */
  newtype int32 = x: int | -0x8000_0000 <= x < 0x8000_0000

  /** Two's-complement wrap-around of a mathematical integer into an `int`. */
  function Wrap32(x: int): (r: int32)
    ensures -0x8000_0000 <= x < 0x8000_0000 ==> r as int == x
    ensures (x - r as int) % 0x1_0000_0000 == 0
  {
    ((x + 0x8000_0000) % 0x1_0000_0000 - 0x8000_0000) as int32
  }

  /** Java's `a - b` on two `int`s: the true difference when it fits,
      otherwise the `int` that differs from it by a multiple of 2^32. */
  function Sub32(a: int32, b: int32): (r: int32)
    ensures -0x8000_0000 <= a as int - b as int < 0x8000_0000 ==> r as int == a as int - b as int
    ensures (a as int - b as int - r as int) % 0x1_0000_0000 == 0
  {
    Wrap32(a as int - b as int)
  }

  /** The number a string of decimal digits spells, most significant first. */
  function DigitsValue(s: string): int
    decreases |s|
  {
    if s == [] then 0 else DigitsValue(s[..|s| - 1]) * 10 + (s[|s| - 1] as int - '0' as int)
  }

  /** Decimal digits of a natural number, as `Long.toString` prints them:
      a non-empty run of digits that spells `n`, with no leading zero. */
  function NatString(n: nat): (s: string)
    ensures |s| >= 1
    ensures forall i :: 0 <= i < |s| ==> '0' <= s[i] <= '9'
    ensures |s| > 1 ==> s[0] != '0'
    ensures DigitsValue(s) == n
  {
    var digit := [(48 + n % 10) as char];
    if n < 10 then digit
    else
      var s := NatString(n / 10) + digit;
      assert s[..|s| - 1] == NatString(n / 10);
      s
  }

  /** `Long.toString`, used when an id is concatenated into a message: the
      digits of `n`, after a minus sign when `n` is negative. */
  function LongString(n: int): (s: string)
    ensures |s| >= 1
    ensures n >= 0 ==> '0' <= s[0] <= '9' && DigitsValue(s) == n
    ensures n >= 0 ==> (forall i :: 0 <= i < |s| ==> '0' <= s[i] <= '9') && (|s| > 1 ==> s[0] != '0')
    ensures n < 0 ==> s[0] == '-' && DigitsValue(s[1..]) == -n
    ensures n < 0 ==> |s| >= 2 && s[1] != '0' && forall i :: 1 <= i < |s| ==> '0' <= s[i] <= '9'
  {
    if n < 0 then
      var s := "-" + NatString(-n);
      assert s[1..] == NatString(-n);
      s
    else NatString(n)
  }

  /** Different ids print differently, so no two ids share a message. */
  lemma LongStringInjective(a: int, b: int)
    requires a != b
    ensures LongString(a) != LongString(b)
  {
  }

  // The messages the controllers build.

  function BookNotFound(id: int): Exception {
    ResourceNotFound("Book not found with id: " + LongString(id))
  }

  function OrderNotFound(id: int): Exception {
    ResourceNotFound("Order not found with id: " + LongString(id))
  }

  function NotEnoughStock(title: string): Exception {
    IllegalArgument("Not enough stock for book: " + title)
  }

  /** A not-found message names the id it was thrown for: distinct ids give
      distinct book messages and distinct order messages. */
  lemma NotFoundMessagesDistinct(a: int, b: int)
    requires a != b
    ensures BookNotFound(a) != BookNotFound(b)
    ensures OrderNotFound(a) != OrderNotFound(b)
  {
    LongStringInjective(a, b);
    var book := "Book not found with id: ";
    var order := "Order not found with id: ";
    assert (book + LongString(a))[|book|..] == LongString(a);
    assert (book + LongString(b))[|book|..] == LongString(b);
    assert (order + LongString(a))[|order|..] == LongString(a);
    assert (order + LongString(b))[|order|..] == LongString(b);
  }

  const NotAuthenticated: Exception := Runtime("User not authenticated")
}
