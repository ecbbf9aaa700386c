/** The application's session state container: the cart (one line per
    product id, colour and size), the wishlist (one entry per product id),
    the waitlist, the order history, the signed-in user and the interface
    language, with the operations the pages call on them. Browser storage
    is not modelled; each operation is one atomic transition on the state. */
module Store {
  import opened Prelude
  import opened Types
  import Translations

  // ---------------------------------------------------------------------
  // Cart
  // ---------------------------------------------------------------------

  /** A cart line is identified by product id, selected colour and size. */
  predicate IsLine(item: CartItem, id: string, color: string, size: string)
  {
    item.product.id == id && item.selectedColor == color && item.selectedSize == size
  }

  predicate HasLine(cart: seq<CartItem>, id: string, color: string, size: string)
  {
    exists i | 0 <= i < |cart| :: IsLine(cart[i], id, color, size)
  }

  /** The position `Array.prototype.find` stops at, if any. */
  function FirstLine(cart: seq<CartItem>, id: string, color: string, size: string): (r: Option<nat>)
    ensures r.None? <==> !HasLine(cart, id, color, size)
    ensures r.Some? ==> r.value < |cart| && IsLine(cart[r.value], id, color, size)
    ensures r.Some? ==> forall j :: 0 <= j < r.value ==> !IsLine(cart[j], id, color, size)
  {
    if cart == [] then None
    else if IsLine(cart[0], id, color, size) then Some(0)
    else
      var rest := FirstLine(cart[1..], id, color, size);
      assert HasLine(cart, id, color, size) ==> HasLine(cart[1..], id, color, size) by {
        if HasLine(cart, id, color, size) {
          var i :| 0 <= i < |cart| && IsLine(cart[i], id, color, size);
          assert cart[1..][i - 1] == cart[i];
        }
      }
      match rest
      case None => None
      case Some(k) => Some(k + 1)
  }

  function LineKeyOf(item: CartItem): LineKey { item.Key() }

  /** The cart holds at most one line per (id, colour, size). */
  ghost predicate DistinctLines(cart: seq<CartItem>)
  {
    DistinctBy(cart, LineKeyOf)
  }

  /** Every line holds at least one unit. */
  predicate PositiveQuantities(cart: seq<CartItem>)
  {
    forall i :: 0 <= i < |cart| ==> cart[i].quantity >= 1
  }

  /** The number of units in the cart. */
  function TotalQuantity(cart: seq<CartItem>): int
  {
    if cart == [] then 0 else cart[0].quantity + TotalQuantity(cart[1..])
  }

  /** addToCart: the first line with the same id, colour and size gains one
      unit; when there is none a new one-unit line made from the product is
      appended. */
  function AddToCart(cart: seq<CartItem>, product: Product, color: string, size: string): (r: seq<CartItem>)
    ensures FirstLine(cart, product.id, color, size).Some? ==>
      var k := FirstLine(cart, product.id, color, size).value;
      |r| == |cart| && r[k] == cart[k].(quantity := cart[k].quantity + 1)
      && forall j :: 0 <= j < |cart| && j != k ==> r[j] == cart[j]
    ensures FirstLine(cart, product.id, color, size).None? ==>
      r == cart + [CartItem(product, 1, color, size)]
  {
    if cart == [] then [CartItem(product, 1, color, size)]
    else if IsLine(cart[0], product.id, color, size) then
      [cart[0].(quantity := cart[0].quantity + 1)] + cart[1..]
    else
      [cart[0]] + AddToCart(cart[1..], product, color, size)
  }

  /** Adding a unit keeps one line per key, and the cart then has a line for it. */
  lemma AddToCartKeepsLinesDistinct(cart: seq<CartItem>, product: Product, color: string, size: string)
    requires DistinctLines(cart)
    ensures DistinctLines(AddToCart(cart, product, color, size))
    ensures HasLine(AddToCart(cart, product, color, size), product.id, color, size)
  {
    var r := AddToCart(cart, product, color, size);
    var f := FirstLine(cart, product.id, color, size);
    if f.Some? {
      forall i | 0 <= i < |r| ensures LineKeyOf(r[i]) == LineKeyOf(cart[i]) {
      }
      assert IsLine(r[f.value], product.id, color, size);
    } else {
      var n := CartItem(product, 1, color, size);
      forall i, j | 0 <= i < j < |r| ensures LineKeyOf(r[i]) != LineKeyOf(r[j]) {
        if j == |cart| {
          assert r[i] == cart[i] && r[j] == n;
          assert !IsLine(cart[i], product.id, color, size);
        } else {
          assert r[i] == cart[i] && r[j] == cart[j];
        }
      }
      assert IsLine(r[|cart|], product.id, color, size);
    }
  }

  /** Adding raises the number of units by exactly one. */
  lemma {:induction false} AddToCartAddsOneUnit(cart: seq<CartItem>, product: Product, color: string, size: string)
    ensures TotalQuantity(AddToCart(cart, product, color, size)) == TotalQuantity(cart) + 1
  {
    var r := AddToCart(cart, product, color, size);
    if cart == [] {
      assert r[1..] == [];
    } else if IsLine(cart[0], product.id, color, size) {
      assert r[1..] == cart[1..];
    } else {
      assert r[1..] == AddToCart(cart[1..], product, color, size);
      AddToCartAddsOneUnit(cart[1..], product, color, size);
    }
  }

  lemma AddToCartKeepsQuantitiesPositive(cart: seq<CartItem>, product: Product, color: string, size: string)
    requires PositiveQuantities(cart)
    ensures PositiveQuantities(AddToCart(cart, product, color, size))
  {
    var f := FirstLine(cart, product.id, color, size);
    if f.Some? {
      var r := AddToCart(cart, product, color, size);
      assert forall i :: 0 <= i < |r| ==> r[i].quantity >= cart[i].quantity;
    }
  }

  /** removeFromCart: keeps, in order, every line that is not the given one. */
  function RemoveFromCart(cart: seq<CartItem>, id: string, color: string, size: string): (r: seq<CartItem>)
    ensures forall x :: x in r <==> x in cart && !IsLine(x, id, color, size)
    ensures !HasLine(r, id, color, size)
    ensures IsSubsequence(r, cart)
  {
    var keep := (item: CartItem) => !IsLine(item, id, color, size);
    FilterIsSubsequence(cart, keep);
    Filter(cart, keep)
  }

  /** Removing a line that is not in the cart leaves the cart as it was. */
  lemma RemoveAbsentLine(cart: seq<CartItem>, id: string, color: string, size: string)
    requires !HasLine(cart, id, color, size)
    ensures RemoveFromCart(cart, id, color, size) == cart
  {
    FilterKeepsAll(cart, (item: CartItem) => !IsLine(item, id, color, size));
  }

  lemma RemoveFromCartKeepsInvariants(cart: seq<CartItem>, id: string, color: string, size: string)
    requires DistinctLines(cart) && PositiveQuantities(cart)
    ensures DistinctLines(RemoveFromCart(cart, id, color, size))
    ensures PositiveQuantities(RemoveFromCart(cart, id, color, size))
  {
    var keep := (item: CartItem) => !IsLine(item, id, color, size);
    FilterKeepsDistinct(cart, keep, LineKeyOf);
    var r := RemoveFromCart(cart, id, color, size);
    forall i | 0 <= i < |r| ensures r[i].quantity >= 1 {
      assert r[i] in cart;
    }
  }

  /** updateQuantity: the given line's quantity becomes max(1, quantity + delta);
      every other line, and the order of lines, stays as it was. */
  function UpdateQuantity(cart: seq<CartItem>, id: string, color: string, size: string, delta: int): (r: seq<CartItem>)
    ensures |r| == |cart|
    ensures forall i :: 0 <= i < |cart| && IsLine(cart[i], id, color, size) ==>
      r[i] == cart[i].(quantity := Max(1, cart[i].quantity + delta))
    ensures forall i :: 0 <= i < |cart| && !IsLine(cart[i], id, color, size) ==> r[i] == cart[i]
  {
    if cart == [] then []
    else
      var head := if IsLine(cart[0], id, color, size)
        then cart[0].(quantity := Max(1, cart[0].quantity + delta))
        else cart[0];
      [head] + UpdateQuantity(cart[1..], id, color, size, delta)
  }

  lemma UpdateQuantityKeepsInvariants(cart: seq<CartItem>, id: string, color: string, size: string, delta: int)
    requires DistinctLines(cart) && PositiveQuantities(cart)
    ensures DistinctLines(UpdateQuantity(cart, id, color, size, delta))
    ensures PositiveQuantities(UpdateQuantity(cart, id, color, size, delta))
  {
    var r := UpdateQuantity(cart, id, color, size, delta);
    assert forall i :: 0 <= i < |r| ==> LineKeyOf(r[i]) == LineKeyOf(cart[i]);
  }

  // ---------------------------------------------------------------------
  // Wishlist
  // ---------------------------------------------------------------------

  /** isInWishlist. */
  predicate InWishlist(wishlist: seq<Product>, id: string)
  {
    exists i | 0 <= i < |wishlist| :: wishlist[i].id == id
  }

  function ProductIdOf(p: Product): string { p.id }

  /** addToWishlist: appends the product unless one with its id is present. */
  function AddToWishlist(wishlist: seq<Product>, product: Product): (r: seq<Product>)
    ensures InWishlist(r, product.id)
    ensures InWishlist(wishlist, product.id) ==> r == wishlist
    ensures !InWishlist(wishlist, product.id) ==> r == wishlist + [product]
  {
    if InWishlist(wishlist, product.id) then wishlist
    else
      assert (wishlist + [product])[|wishlist|] == product;
      wishlist + [product]
  }

  /** Adding never creates a second entry with the same id, and adding twice
      is the same as adding once. */
  lemma AddToWishlistNoDuplicates(wishlist: seq<Product>, product: Product)
    requires DistinctBy(wishlist, ProductIdOf)
    ensures DistinctBy(AddToWishlist(wishlist, product), ProductIdOf)
    ensures AddToWishlist(AddToWishlist(wishlist, product), product) == AddToWishlist(wishlist, product)
  {
    var r := AddToWishlist(wishlist, product);
    if !InWishlist(wishlist, product.id) {
      forall i, j | 0 <= i < j < |r| ensures ProductIdOf(r[i]) != ProductIdOf(r[j]) {
        assert r[i] == wishlist[i];
        if j < |wishlist| {
          assert r[j] == wishlist[j];
        }
      }
    }
  }

  /** removeFromWishlist: drops every entry with the id, keeping the rest in order. */
  function RemoveFromWishlist(wishlist: seq<Product>, id: string): (r: seq<Product>)
    ensures !InWishlist(r, id)
    ensures forall p :: p in r <==> p in wishlist && p.id != id
    ensures IsSubsequence(r, wishlist)
  {
    var keep := (p: Product) => p.id != id;
    FilterIsSubsequence(wishlist, keep);
    Filter(wishlist, keep)
  }

  lemma RemoveFromWishlistKeepsDistinct(wishlist: seq<Product>, id: string)
    requires DistinctBy(wishlist, ProductIdOf)
    ensures DistinctBy(RemoveFromWishlist(wishlist, id), ProductIdOf)
  {
    FilterKeepsDistinct(wishlist, (p: Product) => p.id != id, ProductIdOf);
  }

  // ---------------------------------------------------------------------
  // Waitlist
  // ---------------------------------------------------------------------

  /** isOnWaitlist: some entry pairs the product with the signed-in user. */
  predicate OnWaitlist(waitlist: seq<WaitlistEntry>, user: Option<User>, productId: string)
  {
    user.Some? && exists i | 0 <= i < |waitlist| ::
      waitlist[i].productId == productId && waitlist[i].userId == user.value.id
  }

  /** joinWaitlist: without a user nothing happens; otherwise an entry for
      the product and the user is appended. */
  function JoinWaitlist(waitlist: seq<WaitlistEntry>, user: Option<User>, productId: string, timestamp: string): (r: seq<WaitlistEntry>)
    ensures user.None? ==> r == waitlist
    ensures user.Some? ==> r == waitlist + [WaitlistEntry(productId, user.value.id, timestamp)]
  {
    match user
    case None => waitlist
    case Some(u) => waitlist + [WaitlistEntry(productId, u.id, timestamp)]
  }

  /** After joining, a signed-in user is on the waitlist; nobody is on it
      while signed out; joining never takes anyone off. */
  lemma JoinWaitlistThenOn(waitlist: seq<WaitlistEntry>, user: Option<User>, productId: string, timestamp: string)
    ensures user.Some? ==> OnWaitlist(JoinWaitlist(waitlist, user, productId, timestamp), user, productId)
    ensures user.None? ==> !OnWaitlist(waitlist, user, productId)
    ensures forall pid :: OnWaitlist(waitlist, user, pid) ==> OnWaitlist(JoinWaitlist(waitlist, user, productId, timestamp), user, pid)
  {
    var r := JoinWaitlist(waitlist, user, productId, timestamp);
    if user.Some? {
      assert r[|waitlist|] == WaitlistEntry(productId, user.value.id, timestamp);
      forall pid | OnWaitlist(waitlist, user, pid) ensures OnWaitlist(r, user, pid) {
        var i :| 0 <= i < |waitlist| && waitlist[i].productId == pid && waitlist[i].userId == user.value.id;
        assert r[i] == waitlist[i];
      }
    }
  }

  // ---------------------------------------------------------------------
  // Accounts
  // ---------------------------------------------------------------------

  /** `email.split('@')[0]`: the text before the first '@', or all of it. */
  function EmailName(email: string): (r: string)
    ensures '@' !in r
    ensures StartsWith(email, r)
    ensures |r| < |email| ==> email[|r|] == '@'
  {
    if email == [] || email[0] == '@' then [] else [email[0]] + EmailName(email[1..])
  }

  /** The name of `local@domain` is `local` when the local part has no '@'. */
  lemma {:induction false} EmailNameOfAddress(local: string, domain: string)
    requires '@' !in local
    ensures EmailName(local + "@" + domain) == local
  {
    if local != [] {
      assert (local + "@" + domain)[1..] == local[1..] + "@" + domain;
      EmailNameOfAddress(local[1..], domain);
    }
  }

  /** login: a fresh active account. The random id and the current year are
      inputs. */
  function Login(email: string, role: UserRole, id: string, year: string): (u: User)
    ensures u.email == email && u.role == role && u.isActive
    ensures '@' !in u.name && StartsWith(email, u.name)
    ensures |u.name| < |email| ==> email[|u.name|] == '@'
    ensures u.tier == Free && u.trustScore == 100 && u.monthlyListingsUsed == 0 && u.boostCredits == 0
  {
    User(id, email, EmailName(email), role, true, year, 100, Free, 0, 0)
  }

  /** isAdmin: the signed-in user has the ADMIN or SUPER_ADMIN role. */
  predicate IsAdmin(user: Option<User>)
  {
    user.Some? && (user.value.role == ADMIN || user.value.role == SUPER_ADMIN)
  }

  /** Signing in as anything but USER yields administrator rights; signing
      out removes them. */
  lemma LoginAdminRights(email: string, role: UserRole, id: string, year: string)
    ensures IsAdmin(Some(Login(email, role, id, year))) <==> role != USER
    ensures !IsAdmin(None)
  {
  }

  // ---------------------------------------------------------------------
  // Translation
  // ---------------------------------------------------------------------

  /** `t` as written: `translations[language][key] || translations.de[key] || key`.
      There is no table for French or Italian, so indexing into it throws a
      TypeError; `None` stands for that exception. */
  function TranslateAsWritten(lang: Language, key: string): (r: Option<string>)
    ensures r.None? <==> lang == Fr || lang == It
  {
    match Translations.Table(lang)
    case None => None
    case Some(table) =>
      var own := Translations.Entry(table, key);
      var german := Translations.Entry(Translations.GermanTable, key);
      Some(if own != "" then own else if german != "" then german else key)
  }

  /** `t` with a missing language table treated like a table without the
      key: the current language's entry, else the German entry, else the key. */
  function Translate(lang: Language, key: string): (r: string)
    ensures key != "" ==> r != ""
    ensures key in Translations.GermanTable ==> r != "" && r != key
    ensures key !in Translations.GermanTable && key !in Translations.PersianTable ==> r == key
  {
    Translations.EntriesAreNonEmpty();
    var own := match Translations.Table(lang)
      case None => ""
      case Some(table) => Translations.Entry(table, key);
    var german := Translations.Entry(Translations.GermanTable, key);
    if own != "" then own else if german != "" then german else key
  }

  /** Where the source's `t` returns, the corrected lookup returns the same. */
  lemma TranslateAgreesWhereDefined(lang: Language, key: string)
    requires lang == De || lang == Fa
    ensures TranslateAsWritten(lang, key) == Some(Translate(lang, key))
  {
  }

  /** The discrepancy: with the interface language set to French, every
      lookup in the source throws, while the corrected lookup shows the
      German text. */
  lemma TranslateFrenchThrows()
    ensures TranslateAsWritten(Fr, "atelier").None?
    ensures Translate(Fr, "atelier") == "ATELIER"
  {
  }

  /** The fallback chain: languages without a table read the German text,
      and a key with no entry anywhere ('tiers' is one) reads as itself. */
  lemma TranslateFallbacks(key: string)
    ensures key in Translations.GermanTable ==>
      Translate(Fr, key) == Translations.GermanTable[key] && Translate(It, key) == Translations.GermanTable[key]
    ensures key in Translations.PersianTable ==> Translate(Fa, key) == Translations.PersianTable[key]
    ensures Translate(De, "tiers") == "tiers" && Translate(Fa, "tiers") == "tiers"
  {
    Translations.EntriesAreNonEmpty();
    Translations.CategoryKeysPresentTiersAbsent();
  }

  /** setLanguage also sets the document direction: right-to-left for Persian only. */
  function Direction(lang: Language): (r: string)
    ensures r == "rtl" <==> lang == Fa
    ensures r == "rtl" || r == "ltr"
  {
    if lang == Fa then "rtl" else "ltr"
  }

  // ---------------------------------------------------------------------
  // The whole session
  // ---------------------------------------------------------------------

  datatype Session = Session(
    cart: seq<CartItem>,
    wishlist: seq<Product>,
    waitlist: seq<WaitlistEntry>,
    orders: seq<Order>,
    user: Option<User>,
    language: Language)

  /** The state before anything is restored from storage. */
  const InitialSession: Session := Session([], [], [], [], None, De)

  /** One call into the container. Random ids, the year and timestamps are
      carried by the call. */
  datatype Action =
    | AddToCartA(product: Product, color: string, size: string)
    | RemoveFromCartA(id: string, color: string, size: string)
    | UpdateQuantityA(id: string, color: string, size: string, delta: int)
    | AddToWishlistA(product: Product)
    | RemoveFromWishlistA(productId: string)
    | JoinWaitlistA(productId: string, timestamp: string)
    | LoginA(email: string, role: UserRole, userId: string, year: string)
    | LogoutA
    | ClearCartA
    | AddOrderA(order: Order)
    | SetLanguageA(lang: Language)
    | UpgradeTierA(tier: SubscriptionTier)
    | IncrementListingCountA

  /** Each call touches only its own part of the session. */
  function Step(s: Session, a: Action): (r: Session)
    ensures !(a.AddToCartA? || a.RemoveFromCartA? || a.UpdateQuantityA? || a.ClearCartA?) ==> r.cart == s.cart
    ensures !(a.AddToWishlistA? || a.RemoveFromWishlistA?) ==> r.wishlist == s.wishlist
    ensures !a.JoinWaitlistA? ==> r.waitlist == s.waitlist
    ensures !a.AddOrderA? ==> r.orders == s.orders
    ensures !(a.LoginA? || a.LogoutA?) ==> r.user == s.user
    ensures !a.SetLanguageA? ==> r.language == s.language
  {
    match a
    case AddToCartA(p, c, z) => s.(cart := AddToCart(s.cart, p, c, z))
    case RemoveFromCartA(id, c, z) => s.(cart := RemoveFromCart(s.cart, id, c, z))
    case UpdateQuantityA(id, c, z, d) => s.(cart := UpdateQuantity(s.cart, id, c, z, d))
    case AddToWishlistA(p) => s.(wishlist := AddToWishlist(s.wishlist, p))
    case RemoveFromWishlistA(id) => s.(wishlist := RemoveFromWishlist(s.wishlist, id))
    case JoinWaitlistA(pid, ts) => s.(waitlist := JoinWaitlist(s.waitlist, s.user, pid, ts))
    case LoginA(e, r, id, y) => s.(user := Some(Login(e, r, id, y)))
    case LogoutA => s.(user := None)
    case ClearCartA => s.(cart := [])
    case AddOrderA(o) => s.(orders := [o] + s.orders)
    case SetLanguageA(l) => s.(language := l)
    case UpgradeTierA(_) => s
    case IncrementListingCountA => s
  }

  /** What every reachable session satisfies: one cart line per key, no
      empty line, one wishlist entry per product id. */
  ghost predicate WellFormed(s: Session)
  {
    DistinctLines(s.cart) && PositiveQuantities(s.cart) && DistinctBy(s.wishlist, ProductIdOf)
  }

  /** Every operation keeps the session well formed. */
  lemma {:induction false} StepKeepsWellFormed(s: Session, a: Action)
    requires WellFormed(s)
    ensures WellFormed(Step(s, a))
  {
    match a
    case AddToCartA(p, c, z) =>
      AddToCartKeepsLinesDistinct(s.cart, p, c, z);
      AddToCartKeepsQuantitiesPositive(s.cart, p, c, z);
    case RemoveFromCartA(id, c, z) =>
      RemoveFromCartKeepsInvariants(s.cart, id, c, z);
    case UpdateQuantityA(id, c, z, d) =>
      UpdateQuantityKeepsInvariants(s.cart, id, c, z, d);
    case AddToWishlistA(p) =>
      AddToWishlistNoDuplicates(s.wishlist, p);
    case RemoveFromWishlistA(id) =>
      RemoveFromWishlistKeepsDistinct(s.wishlist, id);
    case _ =>
  }

  /** Orders are newest first, clearing empties the cart, and the tier
      upgrade and listing counter are placeholders that change nothing. */
  lemma SessionBookkeeping(s: Session, o: Order, t: SubscriptionTier)
    ensures Step(s, AddOrderA(o)).orders[0] == o && Step(s, AddOrderA(o)).orders[1..] == s.orders
    ensures Step(s, ClearCartA).cart == [] && TotalQuantity(Step(s, ClearCartA).cart) == 0
    ensures Step(s, UpgradeTierA(t)) == s && Step(s, IncrementListingCountA) == s
    ensures Step(s, LogoutA).user == None && !IsAdmin(Step(s, LogoutA).user)
  {
  }
}
