/** The administrator console's inventory editor: price, stock and delete
    operations on the console's own copy of the catalog, each successful one
    recorded in a newest-first audit log, behind a role guard. */
module AdminConsolePage {
  import opened Prelude
  import opened Types
  import Store
  import Catalog

  /** Without a user, or with the USER role, the console redirects to /auth. */
  function Guard(user: Option<User>): (redirect: Option<string>)
    ensures redirect.None? <==> Store.IsAdmin(user)
    ensures redirect.Some? ==> redirect.value == "/auth"
  {
    if user.None? || !Store.IsAdmin(user) then Some("/auth") else None
  }

  datatype ConsoleState = ConsoleState(products: seq<Product>, logs: seq<AdminActionLog>)

  /** The console starts from the catalog and an empty log. */
  function InitialConsole(catalog: seq<Product>): ConsoleState
  {
    ConsoleState(catalog, [])
  }

  /** recordAction: the new entry goes in front of the older ones. The random
      id suffix and the timestamp are inputs. */
  function Record(logs: seq<AdminActionLog>, admin: User, action: AdminAction, productId: string,
                  productName: string, oldValue: LogValue, newValue: LogValue,
                  logSuffix: string, timestamp: string): (r: seq<AdminActionLog>)
    ensures |r| == |logs| + 1 && r[1..] == logs
    ensures r[0].adminId == admin.id && r[0].adminName == admin.name && r[0].action == action
    ensures r[0].productId == productId && StartsWith(r[0].id, "LOG-")
  {
    [AdminActionLog("LOG-" + logSuffix, admin.id, admin.name, action, productId, productName, oldValue, newValue, timestamp)] + logs
  }

  /** `prev.map(p => p.id === id ? edit(p) : p)`: every product with the id
      is edited in place and every other product is kept. */
  function EditWhere(products: seq<Product>, id: string, edit: Product -> Product): (r: seq<Product>)
    ensures |r| == |products|
    ensures forall i :: 0 <= i < |products| && products[i].id == id ==> r[i] == edit(products[i])
    ensures forall i :: 0 <= i < |products| && products[i].id != id ==> r[i] == products[i]
  {
    if products == [] then []
    else [if products[0].id == id then edit(products[0]) else products[0]] + EditWhere(products[1..], id, edit)
  }

  /** The field an inventory edit sets: the price or the stock. */
  datatype FieldEdit = NewPrice(price: int) | NewStock(stock: int)

  /** The price and stock handlers' map: every product with the id gets the
      edited field, only that field, and every other product is kept. */
  function SetField(products: seq<Product>, id: string, e: FieldEdit): (r: seq<Product>)
    ensures |r| == |products|
    ensures e.NewPrice? ==> forall i :: 0 <= i < |products| && products[i].id == id ==> r[i] == products[i].(price := e.price)
    ensures e.NewStock? ==> forall i :: 0 <= i < |products| && products[i].id == id ==> r[i] == products[i].(stock := e.stock)
    ensures forall i :: 0 <= i < |products| && products[i].id != id ==> r[i] == products[i]
    ensures forall i :: 0 <= i < |r| ==> r[i].id == products[i].id
  {
    match e
    case NewPrice(v) => EditWhere(products, id, (p: Product) => p.(price := v))
    case NewStock(v) => EditWhere(products, id, (p: Product) => p.(stock := v))
  }

  /** handlePriceUpdate. */
  function UpdatePrice(s: ConsoleState, admin: User, lang: Language, id: string, newPrice: int,
                       logSuffix: string, timestamp: string): (r: ConsoleState)
    ensures Catalog.Find(s.products, id).None? ==> r == s
    ensures |r.products| == |s.products|
    ensures Catalog.Find(s.products, id).Some? ==>
      |r.logs| == |s.logs| + 1 && r.logs[1..] == s.logs && r.logs[0].action == UPDATE_PRICE
  {
    match Catalog.Find(s.products, id)
    case None => s
    case Some(prod) =>
      ConsoleState(SetField(s.products, id, NewPrice(newPrice)),
                   Record(s.logs, admin, UPDATE_PRICE, id, prod.name.Get(lang), Num(prod.price), Num(newPrice), logSuffix, timestamp))
  }

  /** handleStockUpdate. The source's `stock || 0` only differs from `stock`
      for values that are not integers. */
  function UpdateStock(s: ConsoleState, admin: User, lang: Language, id: string, newStock: int,
                       logSuffix: string, timestamp: string): (r: ConsoleState)
    ensures Catalog.Find(s.products, id).None? ==> r == s
    ensures |r.products| == |s.products|
    ensures Catalog.Find(s.products, id).Some? ==>
      |r.logs| == |s.logs| + 1 && r.logs[1..] == s.logs && r.logs[0].action == UPDATE_STOCK
  {
    match Catalog.Find(s.products, id)
    case None => s
    case Some(prod) =>
      ConsoleState(SetField(s.products, id, NewStock(newStock)),
                   Record(s.logs, admin, UPDATE_STOCK, id, prod.name.Get(lang), Num(prod.stock), Num(newStock), logSuffix, timestamp))
  }

  /** handleDelete; `confirmed` is the answer to the browser's confirm dialog. */
  function Delete(s: ConsoleState, admin: User, lang: Language, id: string, confirmed: bool,
                  logSuffix: string, timestamp: string): (r: ConsoleState)
    ensures Catalog.Find(s.products, id).None? || !confirmed ==> r == s
    ensures |r.products| <= |s.products|
    ensures Catalog.Find(s.products, id).Some? && confirmed ==>
      |r.logs| == |s.logs| + 1 && r.logs[1..] == s.logs && r.logs[0].action == REMOVE_PRODUCT
  {
    match Catalog.Find(s.products, id)
    case None => s
    case Some(prod) =>
      if !confirmed then s
      else
        ConsoleState(Filter(s.products, (p: Product) => p.id != id),
                     Record(s.logs, admin, REMOVE_PRODUCT, id, prod.name.Get(lang), Text("ACTIVE"), Text("DELETED"), logSuffix, timestamp))
  }

  /** One edit in the inventory panel. */
  datatype Edit =
    | PriceEdit(id: string, newPrice: int)
    | StockEdit(id: string, newStock: int)
    | DeleteEdit(id: string, confirmed: bool)

  /** Applies an edit: only a delete can shorten the
      inventory, and the log grows by at most one entry. */
  function Apply(s: ConsoleState, admin: User, lang: Language, e: Edit, logSuffix: string, timestamp: string): (r: ConsoleState)
    ensures !e.DeleteEdit? ==> |r.products| == |s.products|
    ensures |r.products| <= |s.products|
    ensures |s.logs| <= |r.logs| <= |s.logs| + 1
  {
    match e
    case PriceEdit(id, v) => UpdatePrice(s, admin, lang, id, v, logSuffix, timestamp)
    case StockEdit(id, v) => UpdateStock(s, admin, lang, id, v, logSuffix, timestamp)
    case DeleteEdit(id, c) => Delete(s, admin, lang, id, c, logSuffix, timestamp)
  }

  /** An edit succeeds when its product exists and, for a delete, the
      dialog was confirmed. */
  predicate Succeeds(s: ConsoleState, e: Edit)
  {
    Catalog.Find(s.products, e.id).Some? && (e.DeleteEdit? ==> e.confirmed)
  }

  /** Exactly one log entry per successful edit, placed first and carrying
      the acting administrator; an edit that does not succeed changes nothing. */
  lemma ApplyLogsOncePerSuccess(s: ConsoleState, admin: User, lang: Language, e: Edit, logSuffix: string, timestamp: string)
    ensures var r := Apply(s, admin, lang, e, logSuffix, timestamp);
      Succeeds(s, e) ==> (|r.logs| == |s.logs| + 1 && r.logs[1..] == s.logs
        && r.logs[0].adminId == admin.id && r.logs[0].adminName == admin.name && r.logs[0].productId == e.id)
    ensures !Succeeds(s, e) ==> Apply(s, admin, lang, e, logSuffix, timestamp) == s
  {
  }

  /** A price update changes the price of the edited product and nothing
      else, and logs the old and new price. */
  lemma PriceUpdateEffect(s: ConsoleState, admin: User, lang: Language, id: string, v: int, logSuffix: string, timestamp: string)
    requires Catalog.Find(s.products, id).Some?
    ensures var r := UpdatePrice(s, admin, lang, id, v, logSuffix, timestamp);
      |r.products| == |s.products|
      && (forall i :: 0 <= i < |s.products| ==>
            r.products[i] == (if s.products[i].id == id then s.products[i].(price := v) else s.products[i]))
      && r.logs[0].action == UPDATE_PRICE && r.logs[0].oldValue == Num(Catalog.Find(s.products, id).value.price)
      && r.logs[0].newValue == Num(v)
  {
  }

  /** A stock update changes the stock of the edited product and nothing
      else, and logs the old and new count. */
  lemma StockUpdateEffect(s: ConsoleState, admin: User, lang: Language, id: string, v: int, logSuffix: string, timestamp: string)
    requires Catalog.Find(s.products, id).Some?
    ensures var r := UpdateStock(s, admin, lang, id, v, logSuffix, timestamp);
      |r.products| == |s.products|
      && (forall i :: 0 <= i < |s.products| ==>
            r.products[i] == (if s.products[i].id == id then s.products[i].(stock := v) else s.products[i]))
      && r.logs[0].action == UPDATE_STOCK && r.logs[0].oldValue == Num(Catalog.Find(s.products, id).value.stock)
      && r.logs[0].newValue == Num(v)
  {
  }

  /** A confirmed delete removes exactly the products with that id, keeps
      the others in order, and logs ACTIVE → DELETED. */
  lemma DeleteEffect(s: ConsoleState, admin: User, lang: Language, id: string, logSuffix: string, timestamp: string)
    requires Catalog.Find(s.products, id).Some?
    ensures var r := Delete(s, admin, lang, id, true, logSuffix, timestamp);
      (forall p :: p in r.products <==> p in s.products && p.id != id)
      && IsSubsequence(r.products, s.products)
      && Catalog.Find(r.products, id).None?
      && r.logs[0].action == REMOVE_PRODUCT && r.logs[0].oldValue == Text("ACTIVE") && r.logs[0].newValue == Text("DELETED")
  {
    FilterIsSubsequence(s.products, (p: Product) => p.id != id);
  }

  /** Replays a series of edits by one administrator. */
  function Run(s: ConsoleState, admin: User, lang: Language, edits: seq<(Edit, string, string)>): ConsoleState
    decreases |edits|
  {
    if edits == [] then s
    else Run(Apply(s, admin, lang, edits[0].0, edits[0].1, edits[0].2), admin, lang, edits[1..])
  }

  /** `newer` is `older` with entries by `adminId` put in front. */
  ghost predicate ExtendsBy(newer: seq<AdminActionLog>, older: seq<AdminActionLog>, adminId: string)
  {
    |newer| >= |older| && newer[|newer| - |older|..] == older
    && forall i :: 0 <= i < |newer| - |older| ==> newer[i].adminId == adminId
  }

  lemma ExtendsByTransitive(a: seq<AdminActionLog>, b: seq<AdminActionLog>, c: seq<AdminActionLog>, adminId: string)
    requires ExtendsBy(a, b, adminId) && ExtendsBy(b, c, adminId)
    ensures ExtendsBy(a, c, adminId)
  {
    var k := |a| - |b|;
    assert a == a[..k] + b;
    forall i | 0 <= i < |a| - |c| ensures a[i].adminId == adminId {
      if i >= k {
        assert a[i] == b[i - k];
      }
    }
  }

  /** Over any series of edits the log only grows at the front, by at most
      one entry per edit, and every entry it gains names the acting
      administrator. */
  lemma {:induction false} RunLogIsNewestFirst(s: ConsoleState, admin: User, lang: Language, edits: seq<(Edit, string, string)>)
    ensures ExtendsBy(Run(s, admin, lang, edits).logs, s.logs, admin.id)
    ensures |Run(s, admin, lang, edits).logs| <= |s.logs| + |edits|
    decreases |edits|
  {
    if edits != [] {
      var t := Apply(s, admin, lang, edits[0].0, edits[0].1, edits[0].2);
      ApplyLogsOncePerSuccess(s, admin, lang, edits[0].0, edits[0].1, edits[0].2);
      assert ExtendsBy(t.logs, s.logs, admin.id);
      RunLogIsNewestFirst(t, admin, lang, edits[1..]);
      ExtendsByTransitive(Run(t, admin, lang, edits[1..]).logs, t.logs, s.logs, admin.id);
    }
  }

  function ProductIdOf(p: Product): string { p.id }

  /** The edits keep product ids unique when they were unique. */
  lemma ApplyKeepsIdsDistinct(s: ConsoleState, admin: User, lang: Language, e: Edit, logSuffix: string, timestamp: string)
    requires DistinctBy(s.products, ProductIdOf)
    ensures DistinctBy(Apply(s, admin, lang, e, logSuffix, timestamp).products, ProductIdOf)
  {
    var r := Apply(s, admin, lang, e, logSuffix, timestamp);
    if e.DeleteEdit? {
      if Succeeds(s, e) {
        FilterKeepsDistinct(s.products, (p: Product) => p.id != e.id, ProductIdOf);
      }
    } else {
      assert forall i :: 0 <= i < |r.products| ==> r.products[i].id == s.products[i].id;
    }
  }
}
