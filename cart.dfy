/**
 * The shopping cart of the reader page (js/reader-script.js, `addToCart`
 * and the `reduce` in `updateCartCount`).
 */
module Cart {
  import opened Wrappers
  import opened Catalog

  /** `{...book, quantity}`: a copy of the book's fields plus a quantity. */
  datatype CartItem = CartItem(book: Book, quantity: int)

  /** `cart.find(item => item.id === id)`, as a position. */
  function FindId(cart: seq<CartItem>, id: string): (r: Option<nat>)
    ensures r.Some? ==> r.value < |cart| && cart[r.value].book.id == id
    ensures r.Some? ==> forall k :: 0 <= k < r.value ==> cart[k].book.id != id
    ensures r.None? ==> forall k :: 0 <= k < |cart| ==> cart[k].book.id != id
  {
    if cart == [] then None
    else if cart[0].book.id == id then Some(0)
    else match FindId(cart[1..], id)
      case Some(i) => Some(i + 1)
      case None => None
  }

  /** The cart after `addToCart(book)`: the first item with the book's id
      gains one, otherwise a copy of the book with quantity 1 is appended. */
  function Added(cart: seq<CartItem>, book: Book): seq<CartItem>
  {
    match FindId(cart, book.id)
    case Some(i) => cart[i := cart[i].(quantity := cart[i].quantity + 1)]
    case None => cart + [CartItem(book, 1)]
  }

  /** The number shown on the cart icon: the sum of the quantities. */
  function Total(cart: seq<CartItem>): int
  {
    if cart == [] then 0 else cart[0].quantity + Total(cart[1..])
  }

  /** No two items of the cart share an id. */
  predicate DistinctIds(cart: seq<CartItem>) {
    forall i, j :: 0 <= i < j < |cart| ==> cart[i].book.id != cart[j].book.id
  }

  /** Adding a book already in the cart keeps the length, adds one to the
      first matching item's quantity, and changes nothing else. */
  lemma AddedExisting(cart: seq<CartItem>, book: Book, i: nat)
    requires i < |cart| && cart[i].book.id == book.id
    requires forall k :: 0 <= k < i ==> cart[k].book.id != book.id
    ensures |Added(cart, book)| == |cart|
    ensures Added(cart, book)[i].book == cart[i].book
    ensures Added(cart, book)[i].quantity == cart[i].quantity + 1
    ensures forall k :: 0 <= k < |cart| && k != i ==> Added(cart, book)[k] == cart[k]
  {
  }

  /** Adding a book whose id is not in the cart appends exactly one item,
      the book with quantity 1, and keeps every earlier item. */
  lemma AddedNew(cart: seq<CartItem>, book: Book)
    requires forall k :: 0 <= k < |cart| ==> cart[k].book.id != book.id
    ensures Added(cart, book) == cart + [CartItem(book, 1)]
  {
  }

  /** Adding the same book twice to a cart without it yields one item with
      quantity 2, not two items. */
  lemma AddedTwice(cart: seq<CartItem>, book: Book)
    requires forall k :: 0 <= k < |cart| ==> cart[k].book.id != book.id
    ensures Added(Added(cart, book), book) == cart + [CartItem(book, 2)]
  {
    AddedNew(cart, book);
    var once := cart + [CartItem(book, 1)];
    AddedExisting(once, book, |cart|);
  }

  /** Adding never creates a second item for an id. */
  lemma AddedKeepsIdsDistinct(cart: seq<CartItem>, book: Book)
    requires DistinctIds(cart)
    ensures DistinctIds(Added(cart, book))
  {
  }

  /** Replacing one item's quantity shifts the total by the difference. */
  lemma {:induction false} TotalUpdate(cart: seq<CartItem>, i: nat, q: int)
    requires i < |cart|
    ensures Total(cart[i := cart[i].(quantity := q)]) == Total(cart) - cart[i].quantity + q
  {
    var u := cart[i := cart[i].(quantity := q)];
    if i > 0 {
      assert u[1..] == cart[1..][i - 1 := cart[i].(quantity := q)];
      TotalUpdate(cart[1..], i - 1, q);
    } else {
      assert u[1..] == cart[1..];
    }
  }

  /** The total of a concatenation is the sum of the totals. */
  lemma {:induction false} TotalAppend(a: seq<CartItem>, b: seq<CartItem>)
    ensures Total(a + b) == Total(a) + Total(b)
  {
    if a != [] {
      assert (a + b)[1..] == a[1..] + b;
      TotalAppend(a[1..], b);
    } else {
      assert a + b == b;
    }
  }

  /** Every `addToCart` raises the cart icon's count by exactly one. */
  lemma TotalAdded(cart: seq<CartItem>, book: Book)
    ensures Total(Added(cart, book)) == Total(cart) + 1
  {
    match FindId(cart, book.id)
    case Some(i) =>
      TotalUpdate(cart, i, cart[i].quantity + 1);
    case None =>
      TotalAppend(cart, [CartItem(book, 1)]);
      assert Total([CartItem(book, 1)]) == 1;
  }
}
