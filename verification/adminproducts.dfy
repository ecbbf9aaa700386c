/** The administrator's inventory table: the search and category filter,
    the sortable columns (tag id, description, valuation), the sort toggle
    on the column headers, and the repair action on a design-audit report. */
module AdminProductsPage {
  import opened Prelude
  import opened Types

  // ---------------------------------------------------------------------
  // Filter
  // ---------------------------------------------------------------------

  /** A product is listed when its localized name or its id contains the
      query, ignoring ASCII case, and the category filter is All or its
      category. */
  predicate Listed(p: Product, lang: Language, query: string, category: string)
  {
    (Includes(Lower(p.name.Get(lang)), Lower(query)) || Includes(Lower(p.id), Lower(query)))
    && (category == "All" || p.category.Name() == category)
  }

  function ListedKeep(lang: Language, query: string, category: string): Product -> bool
  {
    (p: Product) => Listed(p, lang, query, category)
  }

  /** The filtering half of processedProducts. */
  function FilterInventory(products: seq<Product>, lang: Language, query: string, category: string): (r: seq<Product>)
    ensures forall p :: p in r <==> p in products && Listed(p, lang, query, category)
    ensures IsSubsequence(r, products)
  {
    FilterIsSubsequence(products, ListedKeep(lang, query, category));
    Filter(products, ListedKeep(lang, query, category))
  }

  /** The empty query is contained in every text, so it hides nothing. */
  lemma EmptyQueryListsCategory(products: seq<Product>, lang: Language)
    ensures FilterInventory(products, lang, "", "All") == products
  {
    forall p ensures ListedKeep(lang, "", "All")(p) {
      assert OccursAt(Lower(""), Lower(p.id), 0);
    }
    FilterKeepsAll(products, ListedKeep(lang, "", "All"));
  }

  // ---------------------------------------------------------------------
  // Sorting
  // ---------------------------------------------------------------------

  /** The clickable column headers. */
  datatype SortKey = IdKey | NameKey | Valuation

  datatype Direction = Asc | Desc

  datatype SortConfig = SortConfig(key: SortKey, direction: Direction)

  /** The order the table opens with: tag id, ascending. */
  const InitialSort: SortConfig := SortConfig(IdKey, Asc)

  /** A column value: valuation compares prices; the id compares as text;
      the localized name compares its current-language text. Empty texts
      stand for the source's falsy-to-'' fallback. */
  datatype SortValue = Amount(n: int) | Label(s: string)

  function KeyOf(p: Product, key: SortKey, lang: Language): SortValue
  {
    match key
    case Valuation => Amount(p.price)
    case IdKey => Label(p.id)
    case NameKey => Label(p.name.Get(lang))
  }

  /** JavaScript's `<` between two column values of the same column. */
  predicate ValueLess(a: SortValue, b: SortValue)
  {
    match (a, b)
    case (Amount(x), Amount(y)) => x < y
    case (Label(x), Label(y)) => LexLess(x, y)
    case _ => false
  }

  /** The comparator returns −1: `a` goes strictly before `b`. */
  predicate Before(a: Product, b: Product, cfg: SortConfig, lang: Language)
  {
    match cfg.direction
    case Asc => ValueLess(KeyOf(a, cfg.key, lang), KeyOf(b, cfg.key, lang))
    case Desc => ValueLess(KeyOf(b, cfg.key, lang), KeyOf(a, cfg.key, lang))
  }

  lemma BeforeIsStrictOrder(a: Product, b: Product, c: Product, cfg: SortConfig, lang: Language)
    ensures !Before(a, a, cfg, lang)
    ensures Before(a, b, cfg, lang) ==> !Before(b, a, cfg, lang)
    ensures Before(a, c, cfg, lang) ==> Before(a, b, cfg, lang) || Before(b, c, cfg, lang)
  {
    var ka, kb, kc := KeyOf(a, cfg.key, lang), KeyOf(b, cfg.key, lang), KeyOf(c, cfg.key, lang);
    if cfg.key != Valuation {
      LexLessIrreflexive(ka.s);
      if LexLess(ka.s, kb.s) && LexLess(kb.s, ka.s) {
        LexLessTransitive(ka.s, kb.s, ka.s);
      }
      LexLessTotal(ka.s, kb.s);
      LexLessTotal(kb.s, kc.s);
      LexLessTotal(ka.s, kc.s);
      if LexLess(ka.s, kb.s) && LexLess(kb.s, kc.s) {
        LexLessTransitive(ka.s, kb.s, kc.s);
      }
      if LexLess(kc.s, kb.s) && LexLess(kb.s, ka.s) {
        LexLessTransitive(kc.s, kb.s, ka.s);
      }
      if LexLess(kb.s, ka.s) && LexLess(ka.s, kc.s) {
        LexLessTransitive(kb.s, ka.s, kc.s);
      }
      if LexLess(ka.s, kc.s) && LexLess(kc.s, kb.s) {
        LexLessTransitive(ka.s, kc.s, kb.s);
      }
      if LexLess(kb.s, kc.s) && LexLess(kc.s, ka.s) {
        LexLessTransitive(kb.s, kc.s, ka.s);
      }
      if LexLess(kc.s, ka.s) && LexLess(ka.s, kb.s) {
        LexLessTransitive(kc.s, ka.s, kb.s);
      }
    }
  }

  /** No element is preceded by a later one that the comparator puts first. */
  predicate Ordered(s: seq<Product>, cfg: SortConfig, lang: Language)
  {
    forall i, j :: 0 <= i < j < |s| ==> !Before(s[j], s[i], cfg, lang)
  }

  /** Inserts `x` in front of the first element it does not come after, so
      that earlier elements stay ahead of equal ones. */
  function Insert(x: Product, s: seq<Product>, cfg: SortConfig, lang: Language): (r: seq<Product>)
    ensures multiset(r) == multiset(s) + multiset{x}
    ensures |r| == |s| + 1
  {
    if s == [] then [x]
    else if Before(s[0], x, cfg, lang) then
      assert s == [s[0]] + s[1..];
      [s[0]] + Insert(x, s[1..], cfg, lang)
    else
      assert s == [s[0]] + s[1..];
      [x] + s
  }

  /** A head that no later element goes before keeps an ordered tail ordered. */
  lemma OrderedCons(h: Product, t: seq<Product>, cfg: SortConfig, lang: Language)
    requires Ordered(t, cfg, lang)
    requires forall k :: 0 <= k < |t| ==> !Before(t[k], h, cfg, lang)
    ensures Ordered([h] + t, cfg, lang)
  {
    var r := [h] + t;
    forall i, j | 0 <= i < j < |r| ensures !Before(r[j], r[i], cfg, lang) {
      assert r[j] == t[j - 1];
      if i > 0 {
        assert r[i] == t[i - 1];
      }
    }
  }

  lemma OrderedTail(s: seq<Product>, cfg: SortConfig, lang: Language)
    requires s != [] && Ordered(s, cfg, lang)
    ensures Ordered(s[1..], cfg, lang)
  {
    var tail := s[1..];
    forall i, j | 0 <= i < j < |tail| ensures !Before(tail[j], tail[i], cfg, lang) {
      assert tail[i] == s[i + 1] && tail[j] == s[j + 1];
    }
  }

  /** When `x` goes after the head, nothing in the rest of the insertion
      goes before the head. */
  lemma HeadStaysFirst(x: Product, s: seq<Product>, cfg: SortConfig, lang: Language)
    requires s != [] && Ordered(s, cfg, lang) && Before(s[0], x, cfg, lang)
    ensures forall k :: 0 <= k < |Insert(x, s[1..], cfg, lang)| ==> !Before(Insert(x, s[1..], cfg, lang)[k], s[0], cfg, lang)
  {
    var tail := s[1..];
    var rest := Insert(x, tail, cfg, lang);
    forall k | 0 <= k < |rest| ensures !Before(rest[k], s[0], cfg, lang) {
      assert rest[k] in multiset(rest);
      if rest[k] == x {
        BeforeIsStrictOrder(s[0], x, x, cfg, lang);
      } else {
        assert rest[k] in multiset(tail);
        var m :| 0 <= m < |tail| && tail[m] == rest[k];
        assert s[m + 1] == rest[k];
      }
    }
  }

  lemma {:induction false} InsertKeepsOrdered(x: Product, s: seq<Product>, cfg: SortConfig, lang: Language)
    requires Ordered(s, cfg, lang)
    ensures Ordered(Insert(x, s, cfg, lang), cfg, lang)
  {
    if s == [] {
    } else if Before(s[0], x, cfg, lang) {
      OrderedTail(s, cfg, lang);
      InsertKeepsOrdered(x, s[1..], cfg, lang);
      HeadStaysFirst(x, s, cfg, lang);
      OrderedCons(s[0], Insert(x, s[1..], cfg, lang), cfg, lang);
    } else {
      forall k | 0 <= k < |s| ensures !Before(s[k], x, cfg, lang) {
        if k > 0 {
          BeforeIsStrictOrder(s[k], s[0], x, cfg, lang);
        }
      }
      OrderedCons(x, s, cfg, lang);
    }
  }

  /** Array.prototype.sort with the page's comparator: a stable sort. */
  function SortProducts(s: seq<Product>, cfg: SortConfig, lang: Language): (r: seq<Product>)
    ensures multiset(r) == multiset(s)
    ensures |r| == |s|
  {
    if s == [] then []
    else
      assert s == [s[0]] + s[1..];
      Insert(s[0], SortProducts(s[1..], cfg, lang), cfg, lang)
  }

  lemma {:induction false} SortProductsIsOrdered(s: seq<Product>, cfg: SortConfig, lang: Language)
    ensures Ordered(SortProducts(s, cfg, lang), cfg, lang)
  {
    if s != [] {
      SortProductsIsOrdered(s[1..], cfg, lang);
      InsertKeepsOrdered(s[0], SortProducts(s[1..], cfg, lang), cfg, lang);
    }
  }

  /** processedProducts: the listed products, rearranged so that no product
      is shown after one the chosen column and direction put behind it:
      non-decreasing for ascending, non-increasing for descending. */
  function ProcessedProducts(products: seq<Product>, lang: Language, query: string, category: string, cfg: SortConfig): (r: seq<Product>)
    ensures multiset(r) == multiset(FilterInventory(products, lang, query, category))
    ensures forall p :: p in r <==> p in products && Listed(p, lang, query, category)
    ensures Ordered(r, cfg, lang)
  {
    var listed := FilterInventory(products, lang, query, category);
    SortProductsIsOrdered(listed, cfg, lang);
    var r := SortProducts(listed, cfg, lang);
    assert forall p :: p in r <==> p in multiset(r);
    assert forall p :: p in listed <==> p in multiset(listed);
    r
  }

  /** Sorting by valuation ascending lists prices in non-decreasing order,
      and descending in non-increasing order. */
  lemma ValuationOrder(products: seq<Product>, lang: Language, query: string, category: string, dir: Direction)
    ensures var r := ProcessedProducts(products, lang, query, category, SortConfig(Valuation, dir));
      forall i, j :: 0 <= i < j < |r| ==> (if dir == Asc then r[i].price <= r[j].price else r[i].price >= r[j].price)
  {
    var r := ProcessedProducts(products, lang, query, category, SortConfig(Valuation, dir));
    forall i, j | 0 <= i < j < |r|
      ensures if dir == Asc then r[i].price <= r[j].price else r[i].price >= r[j].price
    {
      assert !Before(r[j], r[i], SortConfig(Valuation, dir), lang);
    }
  }

  /** toggleSort: the current column flips direction; another column is
      selected ascending. */
  function ToggleSort(prev: SortConfig, key: SortKey): (r: SortConfig)
    ensures r.key == key
    ensures prev.key == key ==> r.direction != prev.direction
    ensures prev.key != key ==> r.direction == Asc
  {
    if prev.key == key then SortConfig(key, if prev.direction == Asc then Desc else Asc)
    else SortConfig(key, Asc)
  }

  /** Clicking the same header twice restores the order; clicking the
      initial column first turns it descending. */
  lemma ToggleSortTwice(cfg: SortConfig, key: SortKey)
    ensures ToggleSort(ToggleSort(cfg, key), key) == (if cfg.key == key then cfg else SortConfig(key, Desc))
    ensures ToggleSort(InitialSort, IdKey) == SortConfig(IdKey, Desc)
    ensures ToggleSort(InitialSort, Valuation) == SortConfig(Valuation, Asc)
  {
  }

  // ---------------------------------------------------------------------
  // Audit report repair
  // ---------------------------------------------------------------------

  /** A design-audit report; the optional fields may be missing from the
      AI's answer. */
  datatype AuditReport = AuditReport(
    status: string,
    driftPoints: seq<string>,
    integrityScore: Option<int>,
    repairDirective: Option<string>)

  /** The repair timer's update `{ ...prev, status: "OPTIMAL", driftPoints: [] }`;
      spreading a missing report contributes no fields. */
  function Repaired(prev: Option<AuditReport>): (r: AuditReport)
    ensures r.status == "OPTIMAL" && r.driftPoints == []
    ensures prev.Some? ==> r.integrityScore == prev.value.integrityScore && r.repairDirective == prev.value.repairDirective
    ensures prev.None? ==> r.integrityScore.None? && r.repairDirective.None?
  {
    match prev
    case None => AuditReport("OPTIMAL", [], None, None)
    case Some(p) => p.(status := "OPTIMAL", driftPoints := [])
  }

  /** EXECUTE_REPAIR is enabled only when no repair runs and the report's
      status is exactly DRIFT. */
  predicate CanRepair(isRepairing: bool, report: Option<AuditReport>)
  {
    !isRepairing && report.Some? && report.value.status == "DRIFT"
  }

  datatype RepairState = RepairState(isRepairing: bool, report: Option<AuditReport>)

  datatype RepairEvent = ExecuteRepair | RepairTimer

  function RepairStep(s: RepairState, e: RepairEvent): RepairState
  {
    match e
    case ExecuteRepair => if CanRepair(s.isRepairing, s.report) then s.(isRepairing := true) else s
    case RepairTimer => if s.isRepairing then RepairState(false, Some(Repaired(s.report))) else s
  }

  /** A repair runs at most once per drifting report: once repaired, the
      report is OPTIMAL and the button stays disabled; repairing again
      changes nothing. */
  lemma RepairIsFinal(s: RepairState)
    requires CanRepair(s.isRepairing, s.report)
    ensures var t := RepairStep(RepairStep(s, ExecuteRepair), RepairTimer);
      !t.isRepairing && t.report == Some(Repaired(s.report)) && !CanRepair(t.isRepairing, t.report)
    ensures !CanRepair(RepairStep(s, ExecuteRepair).isRepairing, RepairStep(s, ExecuteRepair).report)
    ensures Repaired(Some(Repaired(s.report))) == Repaired(s.report)
  {
  }
}
