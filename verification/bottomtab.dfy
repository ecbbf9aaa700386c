/** The bottom tab bar: five tabs, the one for the current path lit, and a
    badge on the bag tab with the number of units in the cart. */
module BottomTabBar {
  import opened Prelude
  import opened Types
  import Store

  /** `cart.reduce((sum, item) => sum + item.quantity, 0)`: a left fold. */
  function CartCount(cart: seq<CartItem>): (r: int)
    ensures Store.PositiveQuantities(cart) ==> r >= |cart|
    decreases |cart|
  {
    if cart == [] then 0 else CartCount(cart[..|cart| - 1]) + cart[|cart| - 1].quantity
  }

  /** The left fold counts the same units as the store's own total. */
  lemma {:induction false} CartCountIsTotalQuantity(cart: seq<CartItem>)
    ensures CartCount(cart) == Store.TotalQuantity(cart)
    decreases |cart|
  {
    if cart != [] {
      var init := cart[..|cart| - 1];
      CartCountIsTotalQuantity(init);
      TotalQuantitySnoc(init, cart[|cart| - 1]);
      assert init + [cart[|cart| - 1]] == cart;
    }
  }

  lemma {:induction false} TotalQuantitySnoc(init: seq<CartItem>, last: CartItem)
    ensures Store.TotalQuantity(init + [last]) == Store.TotalQuantity(init) + last.quantity
    decreases |init|
  {
    if init != [] {
      assert (init + [last])[1..] == init[1..] + [last];
      TotalQuantitySnoc(init[1..], last);
    } else {
      assert ([last])[1..] == [];
    }
  }

  /** The badge: the count, shown only when it is positive. */
  function Badge(cart: seq<CartItem>): (r: Option<int>)
    ensures r.Some? <==> CartCount(cart) > 0
    ensures r.Some? ==> r.value == CartCount(cart)
  {
    var n := CartCount(cart);
    if n > 0 then Some(n) else None
  }

  /** With every line holding at least one unit, as the store keeps it, the
      badge shows exactly when the cart has a line, and never counts fewer
      units than lines. */
  lemma {:induction false} BadgeIffLines(cart: seq<CartItem>)
    requires Store.PositiveQuantities(cart)
    ensures Badge(cart).Some? <==> cart != []
    ensures CartCount(cart) >= |cart|
    decreases |cart|
  {
    if cart != [] {
      var init := cart[..|cart| - 1];
      assert Store.PositiveQuantities(init) by {
        forall i | 0 <= i < |init| ensures init[i].quantity >= 1 {
          assert init[i] == cart[i];
        }
      }
      BadgeIffLines(init);
    }
  }

  /** A tab: its path and the translation key of its caption. */
  datatype NavItem = NavItem(path: string, captionKey: string)

  const NavItems: seq<NavItem> := [
    NavItem("/", "atelier"),
    NavItem("/resale", "sell"),
    NavItem("/products", "archive"),
    NavItem("/cart", "bag"),
    NavItem("/profile", "id")
  ]

  /** A tab is lit on its own path; the catalog tab is also lit on every
      path that starts with "/product", product pages included. */
  predicate IsActive(pathname: string, path: string)
  {
    pathname == path || (path == "/products" && StartsWith(pathname, "/product"))
  }

  /** No other tab's path starts with "/product". */
  lemma OnlyCatalogPathLooksLikeProduct()
    ensures forall i :: 0 <= i < |NavItems| && NavItems[i].path != "/products" ==> !StartsWith(NavItems[i].path, "/product")
  {
    assert "/profile"[4] != "/product"[4];
    assert "/resale"[2] != "/product"[2];
  }

  /** Whatever the path, at most one tab is lit. */
  lemma AtMostOneActive(pathname: string)
    ensures forall i, j :: 0 <= i < j < |NavItems| && IsActive(pathname, NavItems[i].path) ==> !IsActive(pathname, NavItems[j].path)
  {
    OnlyCatalogPathLooksLikeProduct();
    forall i, j | 0 <= i < j < |NavItems| && IsActive(pathname, NavItems[i].path)
      ensures !IsActive(pathname, NavItems[j].path)
    {
      assert NavItems[i].path != NavItems[j].path;
    }
  }

  /** A product page lights the catalog tab and nothing else. */
  lemma ProductPageLightsCatalog(id: string)
    ensures var pathname := "/product/" + id;
      IsActive(pathname, "/products")
      && forall i :: 0 <= i < |NavItems| && NavItems[i].path != "/products" ==> !IsActive(pathname, NavItems[i].path)
  {
    var pathname := "/product/" + id;
    assert pathname[..8] == "/product";
    OnlyCatalogPathLooksLikeProduct();
    forall i | 0 <= i < |NavItems| && NavItems[i].path != "/products"
      ensures !IsActive(pathname, NavItems[i].path)
    {
      assert |NavItems[i].path| <= 8 < |pathname|;
    }
  }
}
