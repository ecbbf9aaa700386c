/** The catalog page: the `cat` and `q` URL parameters, the text and
    category filters over the catalog, the AI grounding request for an
    empty result, and the category menu that rewrites the URL. */
module ProductListPage {
  import opened Prelude
  import opened Types
  import Catalog
  import Store
  import Translations

  /** The page's URL search parameters, one value per name. */
  type Params = map<string, string>

  /** `searchParams.get(name) || ''`. */
  function Param(params: Params, name: string): string
  {
    if name in params then params[name] else ""
  }

  /** `searchParams.get('cat') || 'All'`: a missing or empty `cat` means All. */
  function CurrentCategory(params: Params): (r: string)
    ensures r != ""
    ensures Param(params, "cat") == "" ==> r == "All"
    ensures Param(params, "cat") != "" ==> r == Param(params, "cat")
  {
    if Param(params, "cat") == "" then "All" else params["cat"]
  }

  function SearchQuery(params: Params): string
  {
    Param(params, "q")
  }

  /** The localized name or description contains the query, ignoring
      ASCII case. */
  predicate MatchesQuery(p: Product, lang: Language, query: string)
  {
    Includes(Lower(p.name.Get(lang)), Lower(query))
    || Includes(Lower(p.description.Get(lang)), Lower(query))
  }

  /** When a product is listed: it passes the text filter (skipped for an
      empty query) and the category filter (skipped for All). */
  predicate Listed(p: Product, lang: Language, query: string, category: string)
  {
    (query == "" || MatchesQuery(p, lang, query)) && (category == "All" || p.category.Name() == category)
  }

  function TextKeep(lang: Language, query: string): Product -> bool
  {
    (p: Product) => MatchesQuery(p, lang, query)
  }

  function CategoryKeep(category: string): Product -> bool
  {
    (p: Product) => p.category.Name() == category
  }

  function ListedKeep(lang: Language, query: string, category: string): Product -> bool
  {
    (p: Product) => Listed(p, lang, query, category)
  }

  /** filteredProducts: the text filter, then the category filter. */
  function FilteredProducts(products: seq<Product>, lang: Language, query: string, category: string): (r: seq<Product>)
    ensures forall p :: p in r <==> p in products && Listed(p, lang, query, category)
    ensures IsSubsequence(r, products)
  {
    var byText := if query == "" then products else Filter(products, TextKeep(lang, query));
    var result := if category == "All" then byText else Filter(byText, CategoryKeep(category));
    TwoFiltersAreOne(products, lang, query, category);
    FilterIsSubsequence(products, ListedKeep(lang, query, category));
    result
  }

  lemma TwoFiltersAreOne(products: seq<Product>, lang: Language, query: string, category: string)
    ensures var byText := if query == "" then products else Filter(products, TextKeep(lang, query));
      (if category == "All" then byText else Filter(byText, CategoryKeep(category)))
        == Filter(products, ListedKeep(lang, query, category))
  {
    var listed := ListedKeep(lang, query, category);
    if query == "" && category == "All" {
      forall p ensures listed(p) {
      }
      FilterKeepsAll(products, listed);
    } else if query == "" {
      FilterSameTest(products, CategoryKeep(category), listed);
    } else if category == "All" {
      FilterSameTest(products, TextKeep(lang, query), listed);
    } else {
      FilterTwice(products, TextKeep(lang, query), CategoryKeep(category), listed);
    }
  }

  /** With no query and All selected the whole catalog is listed, in order. */
  lemma NoFilterListsEverything(products: seq<Product>, lang: Language)
    ensures FilteredProducts(products, lang, "", "All") == products
  {
  }

  /** A category no product has lists nothing. */
  lemma AbsentCategoryListsNothing(products: seq<Product>, lang: Language, query: string, category: string)
    requires category != "All"
    requires forall i :: 0 <= i < |products| ==> products[i].category.Name() != category
    ensures FilteredProducts(products, lang, query, category) == []
  {
  }

  /** The catalog has no Kids garments, so the Kids entry of the menu lists
      nothing, and neither does a category value outside the menu. */
  lemma KidsListsNothing(lang: Language, query: string)
    ensures FilteredProducts(Catalog.Products, lang, query, "Kids") == []
    ensures FilteredProducts(Catalog.Products, lang, query, "Shoes") == []
  {
    Catalog.CatalogHasNoKids();
    assert forall i :: 0 <= i < |Catalog.Products| ==> Catalog.Products[i].category.Name() != "Shoes";
    AbsentCategoryListsNothing(Catalog.Products, lang, query, "Kids");
    AbsentCategoryListsNothing(Catalog.Products, lang, query, "Shoes");
  }

  /** What the grounding effect does after each render. */
  datatype InsightsEffect = RequestGrounding(query: string) | ClearInsights

  /** Grounding is asked for only when a non-empty query found nothing. */
  function Insights(query: string, resultCount: nat): (e: InsightsEffect)
    ensures e.RequestGrounding? <==> query != "" && resultCount == 0
    ensures e.RequestGrounding? ==> e.query == query
  {
    if query != "" && resultCount == 0 then RequestGrounding(query) else ClearInsights
  }

  /** The category menu: All removes the parameter, any other entry sets it. */
  function SelectCategory(params: Params, category: string): (r: Params)
    ensures category == "All" ==> "cat" !in r
    ensures category != "All" ==> "cat" in r && r["cat"] == category
    ensures forall k :: k != "cat" ==> (k in r <==> k in params) && (k in r ==> r[k] == params[k])
  {
    if category == "All" then params - {"cat"} else params["cat" := category]
  }

  /** Choosing a menu entry makes it the current category and keeps the
      search query. */
  lemma SelectCategoryRoundTrip(params: Params, category: string)
    requires category in Catalog.AllCategories
    ensures CurrentCategory(SelectCategory(params, category)) == category
    ensures SearchQuery(SelectCategory(params, category)) == SearchQuery(params)
  {
  }

  /** The page heading: the query when there is one, else the lower-cased
      category looked up with `t` as written. None stands for the TypeError
      that lookup throws for a language without a table, French and
      Italian. */
  function Heading(lang: Language, params: Params): (r: Option<string>)
    ensures SearchQuery(params) != "" ==> r == Some("Query: " + SearchQuery(params))
    ensures r.None? <==> SearchQuery(params) == "" && (lang == Fr || lang == It)
    ensures SearchQuery(params) == "" && r.Some? ==> r.value != ""
  {
    var q := SearchQuery(params);
    if q != "" then Some("Query: " + q)
    else
      var key := Lower(CurrentCategory(params));
      var r := Store.TranslateAsWritten(lang, key);
      assert r.Some? ==> r.value != "" by {
        if lang == De || lang == Fa {
          Store.TranslateAgreesWhereDefined(lang, key);
        }
      }
      r
  }

  /** The lower-cased menu entries. */
  lemma LowerMenuEntries()
    ensures Lower("All") == "all" && Lower("Men") == "men" && Lower("Women") == "women"
    ensures Lower("Kids") == "kids" && Lower("Accessories") == "accessories"
  {
  }

  /** Every menu entry's lower-cased name is a translation key, so in German
      and Persian the heading of a menu category is a translated word, never
      the raw key; in French and Italian the lookup throws and there is no
      heading. */
  lemma MenuHeadingsAreTranslated(lang: Language, params: Params)
    requires SearchQuery(params) == "" && CurrentCategory(params) in Catalog.AllCategories
    ensures Lower(CurrentCategory(params)) in Translations.GermanTable
    ensures lang == De || lang == Fa ==>
      Heading(lang, params).Some? && Heading(lang, params).value != Lower(CurrentCategory(params))
    ensures lang == Fr || lang == It ==> Heading(lang, params).None?
  {
    LowerMenuEntries();
    Translations.CategoryKeysPresentTiersAbsent();
    var c := CurrentCategory(params);
    assert c in ["All", "Men", "Women", "Kids", "Accessories"];
    if lang == De || lang == Fa {
      Store.TranslateAgreesWhereDefined(lang, Lower(c));
    }
  }
}
