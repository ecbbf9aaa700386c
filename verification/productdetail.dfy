/** The product page: the lookup by URL id, the gallery, the colour and size
    selection, the related-products strip, the stock light, and the button
    that either adds to the cart or joins the waitlist. The stylist advice
    comes from the AI service and is not modelled. */
module ProductDetailPage {
  import opened Prelude
  import opened Types
  import Catalog
  import Store

  /** `xs[0] || ''`: the first entry, or the empty string for an empty list. */
  function FirstOr(xs: seq<string>): (r: string)
    ensures |xs| > 0 ==> r == xs[0]
    ensures |xs| == 0 ==> r == ""
  {
    if |xs| > 0 then xs[0] else ""
  }

  datatype Tab = DETAILS | ARCHIVE_DATA

  /** The page's own state. */
  datatype Detail = Detail(
    displayedImage: string,
    activeImageIndex: nat,
    selectedColor: string,
    selectedSize: string,
    isAdded: bool,
    activeTab: Tab)

  /** The state when the page is first mounted for a product: the first
      image, colour and size are selected. */
  function Mount(product: Option<Product>): (d: Detail)
    ensures d.activeImageIndex == 0 && !d.isAdded && d.activeTab == DETAILS
    ensures product.Some? && |product.value.colors| > 0 ==> d.selectedColor == product.value.colors[0]
    ensures product.Some? && |product.value.sizes| > 0 ==> d.selectedSize == product.value.sizes[0]
    ensures product.Some? && |product.value.images| > 0 ==> d.displayedImage == product.value.images[0]
    ensures product.None? ==> d.selectedColor == "" && d.selectedSize == "" && d.displayedImage == ""
  {
    match product
    case None => Detail("", 0, "", "", false, DETAILS)
    case Some(p) => Detail(FirstOr(p.images), 0, FirstOr(p.colors), FirstOr(p.sizes), false, DETAILS)
  }

  /** A thumbnail click shows that image and marks its index, together. */
  function Thumbnail(d: Detail, img: string, index: nat): (r: Detail)
    ensures r.displayedImage == img && r.activeImageIndex == index
    ensures r.(displayedImage := d.displayedImage, activeImageIndex := d.activeImageIndex) == d
  {
    d.(displayedImage := img, activeImageIndex := index)
  }

  /** The effect that runs when the product or the language changes, as
      written: the gallery goes back to the first image; the colour and
      size chosen for the previous product are kept. */
  function ProductChangedAsWritten(d: Detail, product: Product): (r: Detail)
    ensures r.activeImageIndex == 0 && r.displayedImage == FirstOr(product.images)
    ensures r.selectedColor == d.selectedColor && r.selectedSize == d.selectedSize
  {
    d.(displayedImage := FirstOr(product.images), activeImageIndex := 0)
  }

  /** The same effect with the selection reset to the new product's first
      colour and size, as on first mount. */
  function ProductChanged(d: Detail, product: Product): (r: Detail)
    ensures r.activeImageIndex == 0 && r.displayedImage == FirstOr(product.images)
    ensures r.selectedColor == FirstOr(product.colors) && r.selectedSize == FirstOr(product.sizes)
    ensures r.isAdded == d.isAdded && r.activeTab == d.activeTab
  {
    d.(displayedImage := FirstOr(product.images), activeImageIndex := 0,
       selectedColor := FirstOr(product.colors), selectedSize := FirstOr(product.sizes))
  }

  /** The selection offers only the product's own colours and sizes. */
  predicate SelectionIsOffered(d: Detail, product: Product)
  {
    d.selectedColor in product.colors && d.selectedSize in product.sizes
  }

  /** With the reset, the selection after any navigation is offered by the
      product on screen, whenever it has a colour and a size. */
  lemma ProductChangedSelectsOfferedOptions(d: Detail, product: Product)
    requires |product.colors| > 0 && |product.sizes| > 0
    ensures SelectionIsOffered(ProductChanged(d, product), product)
    ensures SelectionIsOffered(Mount(Some(product)), product)
  {
  }

  /** The test of the related-products filter. Without a product the
      category comparison is against `undefined` and never holds. */
  function RelatedKeep(category: Option<Category>, id: string): Product -> bool
  {
    (p: Product) => category == Some(p.category) && p.id != id
  }

  /** relatedProducts: up to six other products of the same category, in
      catalog order. */
  function Related(catalog: seq<Product>, product: Option<Product>, id: string): (r: seq<Product>)
    ensures |r| <= 6
    ensures product.None? ==> r == []
    ensures forall i :: 0 <= i < |r| ==> product.Some? && r[i].category == product.value.category && r[i].id != id
    ensures IsSubsequence(r, catalog)
    ensures |r| < 6 ==> forall p :: p in catalog && product.Some? && p.category == product.value.category && p.id != id ==> p in r
  {
    var category := if product.Some? then Some(product.value.category) else None;
    var candidates := Filter(catalog, RelatedKeep(category, id));
    FilterIsSubsequence(catalog, RelatedKeep(category, id));
    var r := Take(candidates, 6);
    PrefixIsSubsequence(r, candidates);
    SubsequenceTransitive(r, candidates, catalog);
    r
  }

  /** The button under the configuration matrix. */
  datatype Trigger =
    | WaitlistButton(disabled: bool, caption: string)
    | AcquireButton(caption: string)

  /** What the page shows for a product that exists. */
  datatype Screen = Screen(trigger: Trigger, stockLightGreen: bool, wishlisted: bool, related: seq<Product>)

  /** The page for the URL id: nothing for an unknown id; otherwise the
      waitlist button replaces the acquisition button exactly when the
      product is out of stock. */
  function Render(catalog: seq<Product>, id: string, d: Detail, s: Store.Session): (r: Option<Screen>)
    ensures r.None? <==> forall i :: 0 <= i < |catalog| ==> catalog[i].id != id
    ensures r.Some? ==> var p := Catalog.Find(catalog, id).value;
      (r.value.trigger.WaitlistButton? <==> p.stock == 0)
      && (r.value.stockLightGreen <==> p.stock > 2)
      && (r.value.wishlisted <==> Store.InWishlist(s.wishlist, id))
      && (r.value.trigger.WaitlistButton? ==> (r.value.trigger.disabled <==> Store.OnWaitlist(s.waitlist, s.user, id)))
      && |r.value.related| <= 6
  {
    match Catalog.Find(catalog, id)
    case None => None
    case Some(p) =>
      var onWaitlist := Store.OnWaitlist(s.waitlist, s.user, p.id);
      var trigger :=
        if p.stock == 0 then
          WaitlistButton(onWaitlist, if onWaitlist then "WAITLIST_SECURED_PROTOCOL" else "INITIATE_WAITLIST_PROTOCOL")
        else
          AcquireButton(if d.isAdded then "ACQUISITION_SUCCESSFUL" else "INITIATE_ACQUISITION_PROTOCOL");
      Some(Screen(trigger, p.stock > 2, Store.InWishlist(s.wishlist, p.id), Related(catalog, Some(p), id)))
  }

  /** What the visitor can do on the page. `AddedTimer` is the 3-second
      timeout that resets the success label; `Navigate` is following a
      related-product link to another product; `SwitchLanguage` re-runs the
      gallery effect for the same product. */
  datatype Control =
    | ToggleWishlist
    | PressTrigger(timestamp: string)
    | ClickThumbnail(img: string, index: nat)
    | ChooseColor(color: string)
    | ChooseSize(size: string)
    | ChooseTab(tab: Tab)
    | AddedTimer
    | Navigate(next: Product)
    | SwitchLanguage

  /** One control on the page for `product`, with the session it reads and
      writes. A disabled waitlist button does nothing. A navigation runs the
      gallery effect as written: the route is not keyed by the product id,
      so the page is not remounted and keeps its colour and size. */
  function Press(d: Detail, s: Store.Session, product: Product, c: Control): (r: (Detail, Store.Session))
    ensures !(c.ToggleWishlist? || c.PressTrigger?) ==> r.1 == s
    ensures !(c.ChooseColor? || c.ChooseSize?) ==>
      r.0.selectedColor == d.selectedColor && r.0.selectedSize == d.selectedSize
    ensures c.Navigate? ==> r.0.activeImageIndex == 0 && r.0.displayedImage == FirstOr(c.next.images)
    ensures c.PressTrigger? && product.stock != 0 ==> r.0.isAdded
  {
    match c
    case ToggleWishlist =>
      if Store.InWishlist(s.wishlist, product.id) then (d, Store.Step(s, Store.RemoveFromWishlistA(product.id)))
      else (d, Store.Step(s, Store.AddToWishlistA(product)))
    case PressTrigger(ts) =>
      if product.stock == 0 then
        if Store.OnWaitlist(s.waitlist, s.user, product.id) then (d, s)
        else (d, Store.Step(s, Store.JoinWaitlistA(product.id, ts)))
      else (d.(isAdded := true), Store.Step(s, Store.AddToCartA(product, d.selectedColor, d.selectedSize)))
    case ClickThumbnail(img, i) => (Thumbnail(d, img, i), s)
    case ChooseColor(color) => (d.(selectedColor := color), s)
    case ChooseSize(size) => (d.(selectedSize := size), s)
    case ChooseTab(t) => (d.(activeTab := t), s)
    case AddedTimer => (d.(isAdded := false), s)
    case Navigate(next) => (ProductChangedAsWritten(d, next), s)
    case SwitchLanguage => (ProductChangedAsWritten(d, product), s)
  }

  /** The heart button flips membership of the product in the wishlist and
      touches nothing else. */
  lemma ToggleWishlistFlips(d: Detail, s: Store.Session, product: Product)
    ensures var r := Press(d, s, product, ToggleWishlist).1;
      (Store.InWishlist(r.wishlist, product.id) <==> !Store.InWishlist(s.wishlist, product.id))
      && r.cart == s.cart && r.waitlist == s.waitlist && r.user == s.user
  {
  }

  /** In stock, the trigger adds one unit with the selected colour and size
      and leaves the waitlist alone; out of stock, it never touches the cart,
      and a signed-in visitor ends up on the waitlist. */
  lemma PressTriggerEffect(d: Detail, s: Store.Session, product: Product, ts: string)
    ensures var r := Press(d, s, product, PressTrigger(ts)).1;
      product.stock != 0 ==> r.cart == Store.AddToCart(s.cart, product, d.selectedColor, d.selectedSize)
                               && r.waitlist == s.waitlist
    ensures var r := Press(d, s, product, PressTrigger(ts)).1;
      product.stock == 0 ==> r.cart == s.cart
                             && (s.user.Some? ==> Store.OnWaitlist(r.waitlist, r.user, product.id))
  {
    if product.stock == 0 && s.user.Some? && !Store.OnWaitlist(s.waitlist, s.user, product.id) {
      Store.JoinWaitlistThenOn(s.waitlist, s.user, product.id, ts);
    }
  }

  /** In stock, the trigger leaves a cart line with exactly the selected
      colour and size, whatever the cart held before. */
  lemma TriggerAddsSelection(d: Detail, s: Store.Session, product: Product, ts: string)
    requires product.stock != 0
    ensures Store.HasLine(Press(d, s, product, PressTrigger(ts)).1.cart, product.id, d.selectedColor, d.selectedSize)
  {
    var c := d.selectedColor;
    var z := d.selectedSize;
    var cart := Store.AddToCart(s.cart, product, c, z);
    var f := Store.FirstLine(s.cart, product.id, c, z);
    if f.Some? {
      assert Store.IsLine(cart[f.value], product.id, c, z);
    } else {
      assert Store.IsLine(cart[|s.cart|], product.id, c, z);
    }
  }

  /** Pressing the trigger on a freshly opened page of an in-stock product
      puts a line with its first colour and first size in the cart. */
  lemma FreshAcquisitionUsesDefaults(s: Store.Session, product: Product, ts: string)
    requires product.stock != 0 && |product.colors| > 0 && |product.sizes| > 0
    ensures var r := Press(Mount(Some(product)), s, product, PressTrigger(ts));
      Store.HasLine(r.1.cart, product.id, product.colors[0], product.sizes[0]) && r.0.isAdded
  {
    TriggerAddsSelection(Mount(Some(product)), s, product, ts);
  }

  /** Following the related-product link from m1 to m2 keeps m1's
      Charcoal / EU 48 selected, which m2 does not offer, and the trigger
      then puts m2 in the cart in that colour and size. */
  lemma StaleSelectionAfterNavigation(s: Store.Session, ts: string)
    ensures var m1 := Catalog.Products[0];
      var m2 := Catalog.Products[3];
      var moved := Press(Mount(Some(m1)), s, m1, Navigate(m2));
      var bought := Press(moved.0, moved.1, m2, PressTrigger(ts));
      m1.id == "m1" && m2.id == "m2" && m1.category == m2.category
      && moved.0.selectedColor == "Charcoal" && moved.0.selectedSize == "EU 48"
      && !SelectionIsOffered(moved.0, m2)
      && Store.HasLine(bought.1.cart, "m2", "Charcoal", "EU 48")
  {
    Catalog.M1AndM2Differ();
    Catalog.CatalogEntriesAreUsable();
    var m1 := Catalog.Products[0];
    var m2 := Catalog.Products[3];
    assert m1.colors[0] == "Charcoal" && m1.sizes[0] == "EU 48";
    var moved := Press(Mount(Some(m1)), s, m1, Navigate(m2));
    TriggerAddsSelection(moved.0, moved.1, m2, ts);
  }

  /** Clicking a thumbnail and then changing product always shows the new
      product's first image at index 0. */
  lemma NavigationResetsGallery(d: Detail, s: Store.Session, product: Product, next: Product, img: string, i: nat)
    ensures var a := Press(d, s, product, ClickThumbnail(img, i));
      var b := Press(a.0, a.1, product, Navigate(next));
      a.0.displayedImage == img && a.0.activeImageIndex == i
      && b.0.activeImageIndex == 0 && b.0.displayedImage == FirstOr(next.images) && b.1 == s
  {
  }
}
