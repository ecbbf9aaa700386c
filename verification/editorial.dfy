/** The editorial page: two curated looks cut from the catalog, each of
    which can be put in the cart in one go, every garment in its first
    colour and first size. */
module EditorialPage {
  import opened Prelude
  import opened Types
  import Catalog
  import Store

  /** A curated look. */
  datatype Look = Look(id: string, title: string, vibe: string, items: seq<Product>)

  /** The two looks: the first two catalog products, then the next two. */
  function Looks(): (r: seq<Look>)
    ensures |r| == 2
    ensures r[0].items == Catalog.Products[0..2] && r[1].items == Catalog.Products[2..4]
  {
    [Look("st-moritz", "St. Moritz After-Hours", "ELEGANT_ALPINE_NIGHTS", Catalog.Products[0..2]),
     Look("zurich-boardroom", "The Zurich Boardroom", "PRECISION_MINIMALISM", Catalog.Products[2..4])]
  }

  /** Every garment offers a first colour and a first size. */
  predicate Usable(items: seq<Product>)
  {
    forall i :: 0 <= i < |items| ==> |items[i].colors| > 0 && |items[i].sizes| > 0
  }

  /** No two garments share an id. */
  predicate DistinctIds(items: seq<Product>)
  {
    forall i, j :: 0 <= i < j < |items| ==> items[i].id != items[j].id
  }

  /** Two adjacent pairs cut from a list of usable products with distinct
      ids share no product. */
  lemma PairsAreDisjoint(s: seq<Product>)
    requires |s| >= 4 && Usable(s) && DistinctIds(s)
    ensures forall p :: p in s[0..2] ==> p !in s[2..4]
    ensures Usable(s[0..2]) && DistinctIds(s[0..2]) && Usable(s[2..4]) && DistinctIds(s[2..4])
  {
    forall p | p in s[0..2] ensures p !in s[2..4] {
      assert p == s[0] || p == s[1];
      assert p.id != s[2].id && p.id != s[3].id;
    }
  }

  /** The looks share no garment, and each is usable with distinct ids. */
  lemma LooksAreDisjoint()
    ensures forall p :: p in Looks()[0].items ==> p !in Looks()[1].items
    ensures forall l :: l in Looks() ==> Usable(l.items) && DistinctIds(l.items) && |l.items| == 2
  {
    Catalog.CatalogIdsAreDistinct();
    Catalog.CatalogEntriesAreUsable();
    var s := Catalog.Products;
    assert Usable(s);
    PairsAreDisjoint(s);
  }

  /** handleAcquireLook: one addToCart per garment, in order, with its
      first colour and first size. */
  function AcquireLook(cart: seq<CartItem>, items: seq<Product>): (r: seq<CartItem>)
    requires Usable(items)
    ensures |cart| <= |r|
    ensures forall i :: 0 <= i < |cart| ==> r[i].Key() == cart[i].Key() && r[i].quantity >= cart[i].quantity
    decreases |items|
  {
    if items == [] then cart
    else AcquireLook(Store.AddToCart(cart, items[0], items[0].colors[0], items[0].sizes[0]), items[1..])
  }

  /** An acquisition adds exactly one unit per garment and at most one new
      line per garment, and never drops a line. */
  lemma {:induction false} AcquireLookAddsUnits(cart: seq<CartItem>, items: seq<Product>)
    requires Usable(items)
    ensures Store.TotalQuantity(AcquireLook(cart, items)) == Store.TotalQuantity(cart) + |items|
    ensures |cart| <= |AcquireLook(cart, items)| <= |cart| + |items|
    decreases |items|
  {
    if items != [] {
      var p := items[0];
      var next := Store.AddToCart(cart, p, p.colors[0], p.sizes[0]);
      Store.AddToCartAddsOneUnit(cart, p, p.colors[0], p.sizes[0]);
      AcquireLookAddsUnits(next, items[1..]);
    }
  }

  /** The line an acquisition makes for a garment. */
  function DefaultLine(p: Product, quantity: int): CartItem
    requires |p.colors| > 0 && |p.sizes| > 0
  {
    CartItem(p, quantity, p.colors[0], p.sizes[0])
  }

  /** One default line per garment, the first `k` with two units and the
      rest with one. */
  function Mixed(items: seq<Product>, k: nat): (r: seq<CartItem>)
    requires Usable(items)
    ensures |r| == |items|
  {
    seq(|items|, i requires 0 <= i < |items| => DefaultLine(items[i], if i < k then 2 else 1))
  }

  /** The cart after the first `k` garments of a look were added to an
      empty cart. */
  function Fresh(items: seq<Product>, k: nat): (r: seq<CartItem>)
    requires Usable(items) && k <= |items|
    ensures |r| == k
  {
    seq(k, i requires 0 <= i < k => DefaultLine(items[i], 1))
  }

  /** Adding the remaining garments to the one-unit lines of the first
      `k` completes one one-unit line per garment. */
  lemma {:induction false} FirstPassFrom(items: seq<Product>, k: nat)
    requires Usable(items) && DistinctIds(items) && k <= |items|
    ensures AcquireLook(Fresh(items, k), items[k..]) == Mixed(items, 0)
    decreases |items| - k
  {
    if k == |items| {
      assert Fresh(items, k) == Mixed(items, 0);
    } else {
      var p := items[k];
      var cart := Fresh(items, k);
      assert !Store.HasLine(cart, p.id, p.colors[0], p.sizes[0]) by {
        forall i | 0 <= i < k ensures !Store.IsLine(cart[i], p.id, p.colors[0], p.sizes[0]) {
          assert cart[i].product == items[i];
        }
      }
      assert Store.AddToCart(cart, p, p.colors[0], p.sizes[0]) == Fresh(items, k + 1);
      assert items[k..][1..] == items[k + 1..];
      FirstPassFrom(items, k + 1);
    }
  }

  /** Adding the remaining garments once more, when the first `k` already
      have two units, brings every line to two units. */
  lemma {:induction false} SecondPassFrom(items: seq<Product>, k: nat)
    requires Usable(items) && DistinctIds(items) && k <= |items|
    ensures AcquireLook(Mixed(items, k), items[k..]) == Mixed(items, |items|)
    decreases |items| - k
  {
    if k < |items| {
      var p := items[k];
      var cart := Mixed(items, k);
      assert Store.IsLine(cart[k], p.id, p.colors[0], p.sizes[0]);
      assert Store.FirstLine(cart, p.id, p.colors[0], p.sizes[0]) == Some(k) by {
        var f := Store.FirstLine(cart, p.id, p.colors[0], p.sizes[0]);
        assert f.Some?;
      }
      var next := Store.AddToCart(cart, p, p.colors[0], p.sizes[0]);
      assert next == Mixed(items, k + 1) by {
        forall i | 0 <= i < |items| ensures next[i] == Mixed(items, k + 1)[i] {
        }
      }
      assert items[k..][1..] == items[k + 1..];
      SecondPassFrom(items, k + 1);
    }
  }

  /** Acquiring a look of distinct garments into an empty cart gives one
      one-unit line per garment, in order; acquiring it again raises each of
      those lines to two units instead of adding lines. */
  lemma AcquireLookTwice(items: seq<Product>)
    requires Usable(items) && DistinctIds(items)
    ensures var once := AcquireLook([], items);
      |once| == |items|
      && (forall i :: 0 <= i < |items| ==> once[i] == CartItem(items[i], 1, items[i].colors[0], items[i].sizes[0]))
      && var twice := AcquireLook(once, items);
      |twice| == |items|
      && forall i :: 0 <= i < |items| ==> twice[i] == CartItem(items[i], 2, items[i].colors[0], items[i].sizes[0])
  {
    assert items[0..] == items;
    var once := AcquireLook([], items);
    assert once == Mixed(items, 0) by {
      assert Fresh(items, 0) == [];
      FirstPassFrom(items, 0);
    }
    var twice := AcquireLook(once, items);
    assert twice == Mixed(items, |items|) by {
      SecondPassFrom(items, 0);
    }
  }

  /** Either look, acquired twice from an empty cart, holds each of its two
      garments once with two units. */
  lemma CuratedLookTwice(l: Look)
    requires l in Looks()
    ensures Usable(l.items)
    ensures var twice := AcquireLook(AcquireLook([], l.items), l.items);
      |twice| == 2 && twice[0].quantity == 2 && twice[1].quantity == 2
      && twice[0].product == l.items[0] && twice[1].product == l.items[1]
  {
    LooksAreDisjoint();
    AcquireLookTwice(l.items);
  }
}
