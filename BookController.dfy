/** The `/books` endpoints: create, read, update and delete by id, the
    listing request with its sort direction, and the three searches. */
module BookController {
  import opened Common
  import opened Entities
  import opened Repositories

  /** The fields an admin sends when creating or updating a book. */
  datatype BookRequest = BookRequest(title: string, author: string, genre: string, price: int, stock: int32)

  /** `POST /books`: the book is stored under a fresh id, as sent. */
  method AddBook(repo: BookRepository, book: BookRequest) returns (saved: Book)
    requires repo.Valid()
    modifies repo
    ensures repo.Valid()
    ensures saved.id !in old(repo.books)
    ensures saved == Book(saved.id, book.title, book.author, book.genre, book.price, book.stock)
    ensures repo.books == old(repo.books)[saved.id := saved]
  {
    saved := Book(repo.nextId, book.title, book.author, book.genre, book.price, book.stock);
    repo.books := repo.books[saved.id := saved];
    repo.nextId := repo.nextId + 1;
  }

  /** `GET /books/{id}`: the stored book, or not found (a 404, never a 500).
      Reading changes nothing. */
  method GetBookById(repo: BookRepository, id: int) returns (r: Result<Book>)
    ensures id in repo.books ==> r == Success(repo.books[id])
    ensures id !in repo.books ==> r == Failure(BookNotFound(id))
  {
    if id !in repo.books {
      return Failure(BookNotFound(id));
    }
    r := Success(repo.books[id]);
  }

  /** `PUT /books/{id}`: title, author, genre, price and stock all take the
      request's values and the id stays; a missing id is not found and
      nothing changes. */
  method UpdateBook(repo: BookRepository, id: int, updatedBook: BookRequest) returns (r: Result<Book>)
    requires repo.Valid()
    modifies repo
    ensures repo.Valid() && repo.nextId == old(repo.nextId)
    ensures id !in old(repo.books) ==> r == Failure(BookNotFound(id)) && repo.books == old(repo.books)
    ensures id in old(repo.books) ==>
      && r == Success(Book(id, updatedBook.title, updatedBook.author, updatedBook.genre,
                           updatedBook.price, updatedBook.stock))
      && repo.books == old(repo.books)[id := r.value]
  {
    if id !in repo.books {
      return Failure(BookNotFound(id));
    }
    var existingBook := repo.books[id];
    existingBook := existingBook.(title := updatedBook.title);
    existingBook := existingBook.(author := updatedBook.author);
    existingBook := existingBook.(genre := updatedBook.genre);
    existingBook := existingBook.(price := updatedBook.price);
    existingBook := existingBook.(stock := updatedBook.stock);
    repo.books := repo.books[id := existingBook];
    r := Success(existingBook);
  }

  /** `DELETE /books/{id}`: the id leaves the catalog and every other book
      stays as it was; a missing id is not found and nothing changes. */
  method DeleteBook(repo: BookRepository, id: int) returns (r: Result<string>)
    requires repo.Valid()
    modifies repo
    ensures repo.Valid() && repo.nextId == old(repo.nextId)
    ensures id !in old(repo.books) ==> r == Failure(BookNotFound(id)) && repo.books == old(repo.books)
    ensures id in old(repo.books) ==>
      && r == Success("Book deleted successfully")
      && id !in repo.books
      && repo.books.Keys == old(repo.books).Keys - {id}
      && forall k :: k in repo.books ==> repo.books[k] == old(repo.books)[k]
  {
    if id !in repo.books {
      return Failure(BookNotFound(id));
    }
    repo.books := repo.books - {id};
    r := Success("Book deleted successfully");
  }

  // ---- Case-insensitive comparison (ASCII letters fold to lower case) ----

  function LowerChar(c: char): char {
    if 'A' <= c <= 'Z' then (c as int + 32) as char else c
  }

  function LowerString(s: string): string {
    seq(|s|, i requires 0 <= i < |s| => LowerChar(s[i]))
  }

  predicate EqualsIgnoreCase(a: string, b: string) {
    LowerString(a) == LowerString(b)
  }

  /** `q` occurs somewhere in `s` as a contiguous run. */
  predicate IsInfix(q: string, s: string)
    decreases |s|
  {
    q <= s || (|s| > 0 && IsInfix(q, s[1..]))
  }

  predicate ContainsIgnoreCase(field: string, query: string) {
    IsInfix(LowerString(query), LowerString(field))
  }

  // ---- Listing ----

  datatype Direction = Ascending | Descending

  /** What `GET /books` hands to the repository: page, size, sort field and
      direction. Slicing and ordering the catalog is the repository's job. */
  datatype PageRequest = PageRequest(page: int32, size: int32, sortBy: string, direction: Direction)

  /** "desc" in any case sorts descending; any other word, "asc" included,
      sorts ascending, so a descending word always has four letters. */
  function SortDirection(direction: string): (d: Direction)
    ensures direction == "desc" || direction == "DESC" ==> d == Descending
    ensures direction == "asc" ==> d == Ascending
    ensures d == Descending ==> |direction| == 4
  {
    assert LowerString("desc") == "desc" && LowerString("DESC") == "desc";
    assert LowerString("asc") == "asc";
    if EqualsIgnoreCase(direction, "desc") then Descending else Ascending
  }

  function GetOr<T>(o: Option<T>, default: T): T {
    if o.Some? then o.value else default
  }

  /** A text parameter with a default: the default applies when the
      parameter is absent and also when it is sent with an empty value. */
  function TextOr(o: Option<string>, default: string): string {
    if o.Some? && o.value != "" then o.value else default
  }

  /** `GET /books` with each query parameter present or absent (`None` stands
      for a number parameter that is absent or sent empty): a parameter sent
      with a value is used as sent, any other takes its default (page 0,
      size 5, sorted by "id", ascending). The sort field is never empty. */
  function ListingRequest(page: Option<int32>, size: Option<int32>, sortBy: Option<string>,
                          direction: Option<string>): (r: PageRequest)
    ensures r.page == (if page.Some? then page.value else 0)
    ensures r.size == (if size.Some? then size.value else 5)
    ensures r.sortBy == (if sortBy.Some? && sortBy.value != "" then sortBy.value else "id")
    ensures r.sortBy != ""
    ensures direction.None? || direction == Some("") ==> r.direction == Ascending
    ensures direction.Some? && direction.value != "" ==> r.direction == SortDirection(direction.value)
  {
    PageRequest(GetOr(page, 0), GetOr(size, 5), TextOr(sortBy, "id"), SortDirection(TextOr(direction, "asc")))
  }

  /** The listing is descending exactly when the direction spells "desc" in
      any mix of upper and lower case; every other word, the default "asc"
      included, gives ascending. */
  lemma {:induction false} DescendingExactly(direction: string)
    ensures SortDirection(direction) == Descending <==>
      |direction| == 4 && LowerChar(direction[0]) == 'd' && LowerChar(direction[1]) == 'e'
        && LowerChar(direction[2]) == 's' && LowerChar(direction[3]) == 'c'
    ensures SortDirection("asc") == Ascending
  {
    var lowered := LowerString(direction);
    assert LowerString("desc") == "desc";
    if |direction| == 4 && LowerChar(direction[0]) == 'd' && LowerChar(direction[1]) == 'e'
        && LowerChar(direction[2]) == 's' && LowerChar(direction[3]) == 'c' {
      assert lowered == "desc";
    }
    if lowered == "desc" {
      assert |direction| == 4;
      assert lowered[0] == LowerChar(direction[0]) && lowered[1] == LowerChar(direction[1]);
      assert lowered[2] == LowerChar(direction[2]) && lowered[3] == LowerChar(direction[3]);
    }
    assert LowerString("asc") == "asc";
  }

  /** With no parameters the listing is page 0 of size 5, ascending by id. */
  lemma DefaultListing()
    ensures ListingRequest(None, None, None, None) == PageRequest(0, 5, "id", Ascending)
  {
  }

  // ---- Searches ----

  /** `GET /books/search/title`. */
  function SearchByTitle(books: map<int, Book>, title: string): (r: map<int, Book>)
    ensures r.Keys <= books.Keys
    ensures forall id :: id in r ==> r[id] == books[id] && ContainsIgnoreCase(books[id].title, title)
    ensures forall id :: id in books && ContainsIgnoreCase(books[id].title, title) ==> id in r
  {
    map id | id in books && ContainsIgnoreCase(books[id].title, title) :: books[id]
  }

  /** `GET /books/search/author`. */
  function SearchByAuthor(books: map<int, Book>, author: string): (r: map<int, Book>)
    ensures r.Keys <= books.Keys
    ensures forall id :: id in r ==> r[id] == books[id] && ContainsIgnoreCase(books[id].author, author)
    ensures forall id :: id in books && ContainsIgnoreCase(books[id].author, author) ==> id in r
  {
    map id | id in books && ContainsIgnoreCase(books[id].author, author) :: books[id]
  }

  /** `GET /books/search/genre`: the whole genre must match, ignoring case. */
  function SearchByGenre(books: map<int, Book>, genre: string): (r: map<int, Book>)
    ensures r.Keys <= books.Keys
    ensures forall id :: id in r ==> r[id] == books[id] && EqualsIgnoreCase(books[id].genre, genre)
    ensures forall id :: id in books && EqualsIgnoreCase(books[id].genre, genre) ==> id in r
  {
    map id | id in books && EqualsIgnoreCase(books[id].genre, genre) :: books[id]
  }

  lemma {:induction false} InfixSurvivesLowering(q: string, s: string)
    requires IsInfix(q, s)
    ensures IsInfix(LowerString(q), LowerString(s))
    decreases |s|
  {
    if q <= s {
      assert LowerString(s)[..|q|] == LowerString(q);
    } else {
      InfixSurvivesLowering(q, s[1..]);
      assert LowerString(s)[1..] == LowerString(s[1..]);
    }
  }

  /** A book whose title or author contains the query verbatim is found by
      the corresponding search, and a book is always found by its own genre. */
  lemma SearchesFindVerbatimMatches(books: map<int, Book>, id: int, query: string)
    requires id in books
    ensures IsInfix(query, books[id].title) ==> id in SearchByTitle(books, query)
    ensures IsInfix(query, books[id].author) ==> id in SearchByAuthor(books, query)
    ensures id in SearchByGenre(books, books[id].genre)
  {
    if IsInfix(query, books[id].title) {
      InfixSurvivesLowering(query, books[id].title);
    }
    if IsInfix(query, books[id].author) {
      InfixSurvivesLowering(query, books[id].author);
    }
  }

  /** The case of the query never matters to any of the three searches. */
  lemma SearchesIgnoreQueryCase(books: map<int, Book>, query: string)
    ensures SearchByTitle(books, query) == SearchByTitle(books, LowerString(query))
    ensures SearchByAuthor(books, query) == SearchByAuthor(books, LowerString(query))
    ensures SearchByGenre(books, query) == SearchByGenre(books, LowerString(query))
  {
    var lowered := LowerString(query);
    assert LowerString(lowered) == lowered;
    forall id | id in books
      ensures ContainsIgnoreCase(books[id].title, query) == ContainsIgnoreCase(books[id].title, lowered)
      ensures ContainsIgnoreCase(books[id].author, query) == ContainsIgnoreCase(books[id].author, lowered)
      ensures EqualsIgnoreCase(books[id].genre, query) == EqualsIgnoreCase(books[id].genre, lowered)
    {
    }
    assert SearchByTitle(books, query).Keys == SearchByTitle(books, lowered).Keys;
    assert SearchByAuthor(books, query).Keys == SearchByAuthor(books, lowered).Keys;
    assert SearchByGenre(books, query).Keys == SearchByGenre(books, lowered).Keys;
  }

  /** An empty title or author query returns the whole catalog. */
  lemma EmptyQueryMatchesAll(books: map<int, Book>)
    ensures SearchByTitle(books, "") == books
    ensures SearchByAuthor(books, "") == books
  {
    assert LowerString("") == "";
    forall id | id in books
      ensures ContainsIgnoreCase(books[id].title, "") && ContainsIgnoreCase(books[id].author, "")
    {
      assert [] <= LowerString(books[id].title);
      assert [] <= LowerString(books[id].author);
    }
    assert SearchByTitle(books, "").Keys == books.Keys;
    assert SearchByAuthor(books, "").Keys == books.Keys;
  }

  /** Genre search is the narrower one: every book it returns has a genre of
      the query's length that also contains the query, ignoring case. */
  lemma GenreSearchIsWholeField(books: map<int, Book>, genre: string, id: int)
    requires id in SearchByGenre(books, genre)
    ensures id in books && |books[id].genre| == |genre|
    ensures ContainsIgnoreCase(books[id].genre, genre)
  {
  }
}
