/** The storefront's record and enumeration types. Every enumeration's
    constructors carry the exact string literal the application uses, and
    `Code()`/`Name()` give that literal back. */
module Types {
  import opened Prelude

  datatype Language = De | Fr | It | Fa
  {
    function Code(): string
    {
      match this
      case De => "de"
      case Fr => "fr"
      case It => "it"
      case Fa => "fa"
    }
  }

  datatype SubscriptionTier = Free | Pro | Unlimited | Circle_VIP

  datatype UserRole = USER | ADMIN | SUPER_ADMIN

  datatype Category = Men | Women | Kids | Accessories
  {
    function Name(): string
    {
      match this
      case Men => "Men"
      case Women => "Women"
      case Kids => "Kids"
      case Accessories => "Accessories"
    }
  }

  datatype OrderStatus = DISPATCHED | ARCHIVED | IN_TRANSIT

  datatype AdminAction = UPDATE_PRICE | UPDATE_STOCK | REMOVE_PRODUCT

  const AllLanguages: seq<Language> := [De, Fr, It, Fa]
  const AllRoles: seq<UserRole> := [USER, ADMIN, SUPER_ADMIN]
  const AllTiers: seq<SubscriptionTier> := [Free, Pro, Unlimited, Circle_VIP]
  const AllOrderStatuses: seq<OrderStatus> := [DISPATCHED, ARCHIVED, IN_TRANSIT]
  const AllAdminActions: seq<AdminAction> := [UPDATE_PRICE, UPDATE_STOCK, REMOVE_PRODUCT]

  /** A `Record<Language, string>`: one text per language, so a lookup by
      any language is always defined. */
  datatype Localized = Localized(de: string, fr: string, it: string, fa: string)
  {
    function Get(lang: Language): string
    {
      match lang
      case De => de
      case Fr => fr
      case It => it
      case Fa => fa
    }
  }

  /** A catalog product. The optional `featured` flag is false when absent;
      reviews and sustainability metrics are not part of this model. */
  datatype Product = Product(
    id: string,
    name: Localized,
    price: int,
    stock: int,
    isActive: bool,
    category: Category,
    description: Localized,
    images: seq<string>,
    colors: seq<string>,
    sizes: seq<string>,
    isNew: bool,
    featured: bool,
    sellerTrustScore: int)

  /** A cart line: the product it was made from plus the chosen quantity,
      colour and size. */
  datatype CartItem = CartItem(product: Product, quantity: int, selectedColor: string, selectedSize: string)
  {
    function Key(): LineKey { LineKey(product.id, selectedColor, selectedSize) }
    function LineTotal(): int { product.price * quantity }
  }

  /** The identity of a cart line: (product id, colour, size). */
  datatype LineKey = LineKey(id: string, color: string, size: string)

  datatype Order = Order(id: string, date: string, items: seq<CartItem>, total: int, status: OrderStatus)

  /** The old and new values an audit entry records: numbers for price and
      stock, words for deletion. */
  datatype LogValue = Num(n: int) | Text(s: string)

  datatype AdminActionLog = AdminActionLog(
    id: string,
    adminId: string,
    adminName: string,
    action: AdminAction,
    productId: string,
    productName: string,
    oldValue: LogValue,
    newValue: LogValue,
    timestamp: string)

  datatype WaitlistEntry = WaitlistEntry(productId: string, userId: string, timestamp: string)

  datatype User = User(
    id: string,
    email: string,
    name: string,
    role: UserRole,
    isActive: bool,
    membershipDate: string,
    trustScore: int,
    tier: SubscriptionTier,
    monthlyListingsUsed: int,
    boostCredits: int)

  /** Each enumeration lists every one of its values exactly once. */
  lemma EnumerationsAreComplete()
    ensures forall l: Language :: l in AllLanguages
    ensures forall r: UserRole :: r in AllRoles
    ensures forall t: SubscriptionTier :: t in AllTiers
    ensures forall s: OrderStatus :: s in AllOrderStatuses
    ensures forall a: AdminAction :: a in AllAdminActions
    ensures |AllLanguages| == 4 && |AllRoles| == 3 && |AllTiers| == 4
    ensures |AllOrderStatuses| == 3 && |AllAdminActions| == 3
  {
    forall l: Language ensures l in AllLanguages {
      match l
      case De => assert AllLanguages[0] == l;
      case Fr => assert AllLanguages[1] == l;
      case It => assert AllLanguages[2] == l;
      case Fa => assert AllLanguages[3] == l;
    }
    forall r: UserRole ensures r in AllRoles {
      match r
      case USER => assert AllRoles[0] == r;
      case ADMIN => assert AllRoles[1] == r;
      case SUPER_ADMIN => assert AllRoles[2] == r;
    }
    forall t: SubscriptionTier ensures t in AllTiers {
      match t
      case Free => assert AllTiers[0] == t;
      case Pro => assert AllTiers[1] == t;
      case Unlimited => assert AllTiers[2] == t;
      case Circle_VIP => assert AllTiers[3] == t;
    }
    forall s: OrderStatus ensures s in AllOrderStatuses {
      match s
      case DISPATCHED => assert AllOrderStatuses[0] == s;
      case ARCHIVED => assert AllOrderStatuses[1] == s;
      case IN_TRANSIT => assert AllOrderStatuses[2] == s;
    }
    forall a: AdminAction ensures a in AllAdminActions {
      match a
      case UPDATE_PRICE => assert AllAdminActions[0] == a;
      case UPDATE_STOCK => assert AllAdminActions[1] == a;
      case REMOVE_PRODUCT => assert AllAdminActions[2] == a;
    }
  }

  /** The language codes are exactly de, fr, it and fa, one per language. */
  lemma LanguageCodesAreDistinct()
    ensures forall a: Language, b: Language :: a.Code() == b.Code() ==> a == b
    ensures forall l: Language :: l.Code() in ["de", "fr", "it", "fa"]
  {
  }

  /** Category names are the four literals of the source type, one per category. */
  lemma CategoryNamesAreDistinct()
    ensures forall a: Category, b: Category :: a.Name() == b.Name() ==> a == b
    ensures forall c: Category :: c.Name() in ["Men", "Women", "Kids", "Accessories"]
  {
  }
}
