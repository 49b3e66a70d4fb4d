/**
 * The reader-side catalogue: the book records read from local storage and
 * the category/search filter applied to them (js/reader-script.js,
 * `filterBooks`).
 */
module Catalog {
  import opened Wrappers
  import opened Text

  /** A catalogue record as the reader page sees it.  `description` and
      `category` may be absent; a missing `rating` reads as 0. */
  datatype Book = Book(
    id: string,
    title: string,
    author: string,
    description: Option<string>,
    category: Option<string>,
    price: real,
    rating: real)

  /** The wildcard category of the category buttons. */
  const ALL: string := "all"

  /** The category test: kept unless a category other than `'all'` is
      selected and the book's category differs from it. */
  predicate InCategory(b: Book, category: string) {
    !(category != ALL && b.category != Some(category))
  }

  /** The search test for a non-empty, lower-cased term: the term occurs
      in the lower-cased title, author, description or category. */
  predicate SearchHit(b: Book, term: string) {
    || Includes(ToLower(b.title), term)
    || Includes(ToLower(b.author), term)
    || (Truthy(b.description) && Includes(ToLower(b.description.value), term))
    || (Truthy(b.category) && Includes(ToLower(b.category.value), term))
  }

  /** The predicate passed to `currentBooks.filter`. */
  predicate Keep(b: Book, category: string, search: string) {
    && InCategory(b, category)
    && (search != "" ==> SearchHit(b, ToLower(search)))
  }

  /** `currentBooks.filter(...)`: the kept books in their original order. */
  function Filtered(books: seq<Book>, category: string, search: string): seq<Book>
  {
    if books == [] then []
    else
      (if Keep(books[0], category, search) then [books[0]] else [])
      + Filtered(books[1..], category, search)
  }

  /** `r` is `s` with some elements left out, the rest in their order. */
  ghost predicate SubsequenceOf(r: seq<Book>, s: seq<Book>)
    decreases |s|
  {
    if r == [] then true
    else if s == [] then false
    else (r[0] == s[0] && SubsequenceOf(r[1..], s[1..])) || SubsequenceOf(r, s[1..])
  }

  /** Filtering keeps the original order: the result is a subsequence. */
  lemma {:induction false} FilteredIsSubsequence(books: seq<Book>, category: string, search: string)
    ensures SubsequenceOf(Filtered(books, category, search), books)
  {
    if books != [] {
      var rest := Filtered(books[1..], category, search);
      FilteredIsSubsequence(books[1..], category, search);
      if Keep(books[0], category, search) {
        assert Filtered(books, category, search) == [books[0]] + rest;
        assert ([books[0]] + rest)[1..] == rest;
      } else {
        assert Filtered(books, category, search) == rest;
        if rest != [] {
          assert SubsequenceOf(rest, books[1..]);
        }
      }
    }
  }

  /** Filtering distributes over concatenation, so the order of the
      catalogue carries over to the result. */
  lemma {:induction false} FilteredAppend(a: seq<Book>, b: seq<Book>, category: string, search: string)
    ensures Filtered(a + b, category, search) == Filtered(a, category, search) + Filtered(b, category, search)
  {
    if a != [] {
      assert (a + b)[1..] == a[1..] + b;
      FilteredAppend(a[1..], b, category, search);
    } else {
      assert a + b == b;
    }
  }

  /** Every returned book comes from the catalogue, lies in the selected
      category (unless it is `'all'`) and, for a non-empty search, contains
      the lower-cased term; and every catalogue book meeting both tests is
      returned. */
  lemma {:induction false} FilteredMembers(books: seq<Book>, category: string, search: string, b: Book)
    ensures b in Filtered(books, category, search) <==> b in books && Keep(b, category, search)
    ensures b in Filtered(books, category, search) && category != ALL ==> b.category == Some(category)
    ensures b in Filtered(books, category, search) && search != "" ==> SearchHit(b, ToLower(search))
  {
    if books != [] {
      FilteredMembers(books[1..], category, search, b);
      assert books == [books[0]] + books[1..];
    }
  }

  /** With the `'all'` category and no search, nothing is filtered out. */
  lemma {:induction false} FilteredAllIsIdentity(books: seq<Book>)
    ensures Filtered(books, ALL, "") == books
  {
    if books != [] {
      FilteredAllIsIdentity(books[1..]);
    }
  }

  /** With an empty search (after `clearSearch`) the result depends on the
      category alone. */
  lemma FilteredWithoutSearch(books: seq<Book>, category: string)
    ensures forall b :: b in Filtered(books, category, "") <==> b in books && InCategory(b, category)
  {
    forall b ensures b in Filtered(books, category, "") <==> b in books && InCategory(b, category) {
      FilteredMembers(books, category, "", b);
    }
  }
}
