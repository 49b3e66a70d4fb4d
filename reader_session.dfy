/**
 * The module-level state of the reader page (js/reader-script.js): the
 * catalogue, the filtered view, the selected category, the search term and
 * the shopping cart, with the handlers that reassign or mutate them.  The
 * `bookstore_cart` entry of local storage is the field `storedCart`.
 */
module ReaderSession {
  import opened Wrappers
  import opened Text
  import opened Catalog
  import opened Cart

  /** Where a click on the cart icon leads. */
  datatype CartIconResult = GoToCheckout | CartEmptyAlert

  class Session {
    var currentBooks: seq<Book>
    var filteredBooks: seq<Book>
    var currentCategory: string
    var currentSearch: string
    var shoppingCart: seq<CartItem>
    var storedCart: seq<CartItem>

    /** The state before the page has loaded anything, over the cart that
        local storage already holds from an earlier visit. */
    constructor (stored: seq<CartItem>)
      ensures currentBooks == [] && filteredBooks == []
      ensures currentCategory == ALL && currentSearch == ""
      ensures shoppingCart == [] && storedCart == stored
    {
      currentBooks, filteredBooks := [], [];
      currentCategory, currentSearch := ALL, "";
      shoppingCart, storedCart := [], stored;
    }

    /** `loadBooks`: the stored catalogue becomes the catalogue and, whatever
        the category and search, the whole of the filtered view. */
    method LoadBooks(stored: seq<Book>)
      modifies this
      ensures currentBooks == stored && filteredBooks == stored
      ensures currentCategory == old(currentCategory) && currentSearch == old(currentSearch)
      ensures shoppingCart == old(shoppingCart) && storedCart == old(storedCart)
    {
      currentBooks := stored;
      filteredBooks := stored;
    }

    /** `loadShoppingCart`: the stored cart becomes the cart. */
    method LoadShoppingCart()
      modifies this
      ensures shoppingCart == old(storedCart) && storedCart == old(storedCart)
      ensures currentBooks == old(currentBooks) && filteredBooks == old(filteredBooks)
      ensures currentCategory == old(currentCategory) && currentSearch == old(currentSearch)
    {
      shoppingCart := storedCart;
    }

    /** `filterBooks`: the filtered view is recomputed from the catalogue. */
    method FilterBooks()
      modifies this
      ensures filteredBooks == Filtered(currentBooks, currentCategory, currentSearch)
      ensures currentBooks == old(currentBooks)
      ensures currentCategory == old(currentCategory) && currentSearch == old(currentSearch)
      ensures shoppingCart == old(shoppingCart) && storedCart == old(storedCart)
    {
      filteredBooks := Filtered(currentBooks, currentCategory, currentSearch);
    }

    /** A click on a category button. */
    method SelectCategory(category: string)
      modifies this
      ensures currentCategory == category
      ensures filteredBooks == Filtered(currentBooks, category, currentSearch)
      ensures currentBooks == old(currentBooks) && currentSearch == old(currentSearch)
      ensures shoppingCart == old(shoppingCart) && storedCart == old(storedCart)
    {
      currentCategory := category;
      FilterBooks();
    }

    /** `performSearch`: the input is stored trimmed and lower-cased. */
    method PerformSearch(input: string)
      modifies this
      ensures currentSearch == ToLower(Trim(input))
      ensures filteredBooks == Filtered(currentBooks, currentCategory, currentSearch)
      ensures currentBooks == old(currentBooks) && currentCategory == old(currentCategory)
      ensures shoppingCart == old(shoppingCart) && storedCart == old(storedCart)
    {
      currentSearch := ToLower(Trim(input));
      FilterBooks();
    }

    /** `clearSearch`: the search is emptied, so the view is the catalogue
        restricted by the category alone. */
    method ClearSearch()
      modifies this
      ensures currentSearch == ""
      ensures filteredBooks == Filtered(currentBooks, currentCategory, "")
      ensures forall b :: b in filteredBooks <==> b in currentBooks && InCategory(b, currentCategory)
      ensures currentBooks == old(currentBooks) && currentCategory == old(currentCategory)
      ensures shoppingCart == old(shoppingCart) && storedCart == old(storedCart)
    {
      currentSearch := "";
      FilterBooks();
      FilteredWithoutSearch(currentBooks, currentCategory);
    }

    /** `addToCart`: the first item with the book's id gains one, otherwise
        a copy of the book with quantity 1 is pushed; the whole cart is then
        written to local storage. */
    method AddToCart(book: Book)
      modifies this
      ensures shoppingCart == Added(old(shoppingCart), book)
      ensures storedCart == shoppingCart
      ensures Total(shoppingCart) == Total(old(shoppingCart)) + 1
      ensures DistinctIds(old(shoppingCart)) ==> DistinctIds(shoppingCart)
      ensures currentBooks == old(currentBooks) && filteredBooks == old(filteredBooks)
      ensures currentCategory == old(currentCategory) && currentSearch == old(currentSearch)
    {
      ghost var before := shoppingCart;
      var i := 0;
      while i < |shoppingCart| && shoppingCart[i].book.id != book.id
        invariant 0 <= i <= |shoppingCart|
        invariant forall k :: 0 <= k < i ==> shoppingCart[k].book.id != book.id
      {
        i := i + 1;
      }
      if i < |shoppingCart| {
        assert FindId(shoppingCart, book.id) == Some(i);
        shoppingCart := shoppingCart[i := shoppingCart[i].(quantity := shoppingCart[i].quantity + 1)];
      } else {
        shoppingCart := shoppingCart + [CartItem(book, 1)];
      }
      storedCart := shoppingCart;
      TotalAdded(before, book);
      if DistinctIds(before) {
        AddedKeepsIdsDistinct(before, book);
      }
    }

    /** The cart icon leads to checkout exactly when the cart holds an
        item; otherwise only the empty-cart alert appears. */
    method CartIconClick() returns (r: CartIconResult)
      ensures r == GoToCheckout <==> |shoppingCart| > 0
      ensures r == CartEmptyAlert <==> shoppingCart == []
    {
      if |shoppingCart| > 0 {
        r := GoToCheckout;
      } else {
        r := CartEmptyAlert;
      }
    }

    /** `buyNow`: the book is added and checkout follows unconditionally. */
    method BuyNow(book: Book) returns (r: CartIconResult)
      modifies this
      ensures r == GoToCheckout
      ensures shoppingCart == Added(old(shoppingCart), book) && storedCart == shoppingCart
      ensures currentBooks == old(currentBooks) && filteredBooks == old(filteredBooks)
      ensures currentCategory == old(currentCategory) && currentSearch == old(currentSearch)
    {
      AddToCart(book);
      r := GoToCheckout;
    }
  }
}
