/**
 * The cart and favourites state of the storefront: adding a product variant
 * in a size either bumps the quantity of its existing cart line or appends a
 * new line, and toggling a favourite flips the product's membership in the
 * favourites list.
 */
module Commerce {

  /** `CartItem`: one cart line. Prices are whole numbers here. */
  datatype CartItem = CartItem(
    id: string,
    productId: string,
    slug: string,
    name: string,
    price: int,
    variant: string,
    variantLabel: string,
    size: string,
    image: string,
    quantity: int)

  /** `AddToCartPayload`. */
  datatype Payload = Payload(
    productId: string,
    slug: string,
    name: string,
    price: int,
    variant: string,
    variantLabel: string,
    size: string,
    image: string)

  /** The line identifier `${productId}-${variant}-${size}`. */
  function LineId(p: Payload): (id: string)
    ensures |id| == |p.productId| + |p.variant| + |p.size| + 2
    ensures id[..|p.productId|] == p.productId && id[|p.productId|] == '-'
    ensures id[|id| - |p.size|..] == p.size && id[|id| - |p.size| - 1] == '-'
  {
    p.productId + "-" + p.variant + "-" + p.size
  }

  /** The line a first add of the payload creates. */
  function NewLine(p: Payload): CartItem
  {
    CartItem(LineId(p), p.productId, p.slug, p.name, p.price, p.variant, p.variantLabel, p.size, p.image, 1)
  }

  /** `cart.findIndex((item) => item.id === id)`. */
  function FindIndex(cart: seq<CartItem>, id: string): (r: int)
    ensures -1 <= r < |cart|
    ensures r >= 0 ==> cart[r].id == id && forall j :: 0 <= j < r ==> cart[j].id != id
    ensures r == -1 <==> forall j :: 0 <= j < |cart| ==> cart[j].id != id
    decreases |cart|
  {
    if |cart| == 0 then -1
    else if cart[0].id == id then 0
    else
      var k := FindIndex(cart[1..], id);
      if k == -1 then -1 else k + 1
  }

  /** `previous.includes(x)`. */
  function Includes(xs: seq<string>, x: string): (r: bool)
    ensures r <==> x in xs
    decreases |xs|
  {
    if |xs| == 0 then false else xs[0] == x || Includes(xs[1..], x)
  }

  /** `previous.filter((id) => id !== x)`. */
  function RemoveAll(xs: seq<string>, x: string): (r: seq<string>)
    ensures x !in r
    ensures forall y :: y != x ==> (y in r <==> y in xs)
    ensures x !in xs ==> r == xs
    decreases |xs|
  {
    if |xs| == 0 then []
    else if xs[0] == x then RemoveAll(xs[1..], x)
    else [xs[0]] + RemoveAll(xs[1..], x)
  }

  /** The cart after `addToCart(p)`. */
  function AddedToCart(cart: seq<CartItem>, p: Payload): seq<CartItem>
  {
    var i := FindIndex(cart, LineId(p));
    if i != -1 then cart[i := cart[i].(quantity := cart[i].quantity + 1)]
    else cart + [NewLine(p)]
  }

  /** The favourites after `toggleFavorite(x)`. */
  function ToggledFavorites(favorites: seq<string>, x: string): seq<string>
  {
    if Includes(favorites, x) then RemoveAll(favorites, x) else favorites + [x]
  }

  /** Line ids are unique and every quantity is at least one. */
  predicate ValidCart(cart: seq<CartItem>)
  {
    && (forall i, j :: 0 <= i < j < |cart| ==> cart[i].id != cart[j].id)
    && (forall i :: 0 <= i < |cart| ==> cart[i].quantity >= 1)
  }

  /** The number of items in the cart, counting quantities. */
  function TotalQuantity(cart: seq<CartItem>): int
    decreases |cart|
  {
    if |cart| == 0 then 0 else TotalQuantity(cart[..|cart| - 1]) + cart[|cart| - 1].quantity
  }

  /**
   * The provider's state: the cart lines and the favourite product ids.
   * `ValidCart(cart)` holds from construction on: the constructor makes it
   * true, `AddToCart` keeps it and `ToggleFavorite` leaves the cart alone.
   */
  class Store {
    var cart: seq<CartItem>
    var favorites: seq<string>

    /** Both lists start empty. */
    constructor()
      ensures cart == [] && favorites == []
      ensures ValidCart(cart)
    {
      cart := [];
      favorites := [];
    }

    /** The `addToCart` updater: bump the matching line in a copy, or append a new one. */
    method AddToCart(p: Payload)
      modifies this
      ensures cart == AddedToCart(old(cart), p)
      ensures favorites == old(favorites)
      ensures ValidCart(old(cart)) ==> ValidCart(cart)
      ensures TotalQuantity(cart) == TotalQuantity(old(cart)) + 1
    {
      AddUpdates(cart, p);
      var identifier := LineId(p);
      var existingIndex := FindIndex(cart, identifier);
      if existingIndex != -1 {
        var next := cart;
        var existing := next[existingIndex];
        next := next[existingIndex := existing.(quantity := existing.quantity + 1)];
        cart := next;
        return;
      }
      cart := cart + [NewLine(p)];
    }

    /** The `toggleFavorite` updater. */
    method ToggleFavorite(productId: string)
      modifies this
      ensures favorites == ToggledFavorites(old(favorites), productId)
      ensures cart == old(cart)
    {
      if Includes(favorites, productId) {
        favorites := RemoveAll(favorites, productId);
        return;
      }
      favorites := favorites + [productId];
    }

    /** `isFavorite(productId)`. */
    function IsFavorite(productId: string): (r: bool)
      reads this
      ensures r <==> productId in favorites
    {
      Includes(favorites, productId)
    }
  }

  // ---------------------------------------------------------------------------
  // what the updaters promise
  // ---------------------------------------------------------------------------

  /**
   * Adding a variant already in the cart bumps that line's quantity by one
   * and leaves its other fields, the cart's length and every other line as
   * they were.
   */
  lemma AddExisting(cart: seq<CartItem>, p: Payload, i: nat)
    requires ValidCart(cart) && i < |cart| && cart[i].id == LineId(p)
    ensures var r := AddedToCart(cart, p);
            && |r| == |cart|
            && r[i] == cart[i].(quantity := cart[i].quantity + 1)
            && (forall j :: 0 <= j < |cart| && j != i ==> r[j] == cart[j])
  {
    assert FindIndex(cart, LineId(p)) == i;
  }

  /** Adding a variant not yet in the cart appends a line of quantity one with the payload's fields. */
  lemma AddNew(cart: seq<CartItem>, p: Payload)
    requires forall j :: 0 <= j < |cart| ==> cart[j].id != LineId(p)
    ensures AddedToCart(cart, p) == cart + [NewLine(p)]
    ensures AddedToCart(cart, p)[|cart|].quantity == 1 && AddedToCart(cart, p)[|cart|].id == LineId(p)
  {
  }

  /** Adding keeps line ids unique and quantities positive. */
  lemma AddKeepsValid(cart: seq<CartItem>, p: Payload)
    requires ValidCart(cart)
    ensures ValidCart(AddedToCart(cart, p))
  {
    var i := FindIndex(cart, LineId(p));
    if i == -1 {
      var r := cart + [NewLine(p)];
      forall a, b | 0 <= a < b < |r| ensures r[a].id != r[b].id {
        if b == |cart| {
          assert r[a] == cart[a];
        }
      }
    }
  }

  /** What `AddToCart` keeps, in one place for the method to cite. */
  lemma AddUpdates(cart: seq<CartItem>, p: Payload)
    ensures ValidCart(cart) ==> ValidCart(AddedToCart(cart, p))
    ensures TotalQuantity(AddedToCart(cart, p)) == TotalQuantity(cart) + 1
  {
    if ValidCart(cart) {
      AddKeepsValid(cart, p);
    }
    AddCountsOne(cart, p);
  }

  /** Each add puts exactly one more item in the cart. */
  lemma AddCountsOne(cart: seq<CartItem>, p: Payload)
    ensures TotalQuantity(AddedToCart(cart, p)) == TotalQuantity(cart) + 1
  {
    var i := FindIndex(cart, LineId(p));
    if i != -1 {
      TotalAfterUpdate(cart, i, cart[i].(quantity := cart[i].quantity + 1));
    } else {
      assert (cart + [NewLine(p)])[..|cart|] == cart;
    }
  }

  lemma {:induction false} TotalAfterUpdate(cart: seq<CartItem>, i: nat, item: CartItem)
    requires i < |cart|
    ensures TotalQuantity(cart[i := item]) == TotalQuantity(cart) - cart[i].quantity + item.quantity
    decreases |cart|
  {
    var n := |cart| - 1;
    var r := cart[i := item];
    if i < n {
      assert r[..n] == cart[..n][i := item];
      TotalAfterUpdate(cart[..n], i, item);
    } else {
      assert r[..n] == cart[..n];
    }
  }

  /**
   * Toggling flips membership of the id and leaves every other id's
   * membership alone: a present id is removed everywhere, an absent one is
   * appended at the end.
   */
  lemma ToggleFlips(favorites: seq<string>, x: string)
    ensures x in ToggledFavorites(favorites, x) <==> x !in favorites
    ensures forall y :: y != x ==> (y in ToggledFavorites(favorites, x) <==> y in favorites)
    ensures x !in favorites ==> ToggledFavorites(favorites, x) == favorites + [x]
    ensures x in favorites ==> ToggledFavorites(favorites, x) == RemoveAll(favorites, x)
  {
  }

  /**
   * `filter` keeps the other ids in their order and number: removal
   * distributes over concatenation, and a single id is dropped exactly when
   * it is the removed one. The two facts fix `RemoveAll` on every list.
   */
  lemma {:induction false} RemoveAllFilters(xs: seq<string>, ys: seq<string>, x: string)
    ensures RemoveAll(xs + ys, x) == RemoveAll(xs, x) + RemoveAll(ys, x)
    ensures forall y :: RemoveAll([y], x) == if y == x then [] else [y]
    decreases |xs|
  {
    forall y ensures RemoveAll([y], x) == if y == x then [] else [y] {
      assert [y][1..] == [];
    }
    if |xs| == 0 {
      assert xs + ys == ys;
    } else {
      assert (xs + ys)[0] == xs[0];
      assert (xs + ys)[1..] == xs[1..] + ys;
      RemoveAllFilters(xs[1..], ys, x);
    }
  }

  /**
   * Toggling twice restores membership; starting from an absent id it
   * restores the list exactly.
   */
  lemma ToggleTwice(favorites: seq<string>, x: string)
    ensures forall y :: y in ToggledFavorites(ToggledFavorites(favorites, x), x) <==> y in favorites
    ensures x !in favorites ==> ToggledFavorites(ToggledFavorites(favorites, x), x) == favorites
  {
    ToggleFlips(favorites, x);
    ToggleFlips(ToggledFavorites(favorites, x), x);
    if x !in favorites {
      RemoveAppended(favorites, x);
    }
  }

  lemma {:induction false} RemoveAppended(xs: seq<string>, x: string)
    requires x !in xs
    ensures RemoveAll(xs + [x], x) == xs
    decreases |xs|
  {
    if |xs| == 0 {
      assert xs + [x] == [x];
      assert RemoveAll([x], x) == RemoveAll([x][1..], x);
    } else {
      assert (xs + [x])[1..] == xs[1..] + [x];
      RemoveAppended(xs[1..], x);
      assert xs == [xs[0]] + xs[1..];
    }
  }
}
