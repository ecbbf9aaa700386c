/** The product catalog, the garment-type list and the category menu, as
    constants, together with the facts about them that the pages rely on
    (indexing `colors[0]`, `sizes[0]` and `images[0]`, filtering by category,
    picking featured items). */
module Catalog {
  import opened Prelude
  import opened Types

  /** The catalog in its shipped order. */
  const Products: seq<Product> := [M1, W4, A2, M2, W1, M5, A1]

  const M1: Product := Product(
    id := "m1",
    name := M1Name,
    price := 1250,
    stock := 5,
    isActive := true,
    category := Men,
    description := M1Description,
    images := M1Images,
    colors := ["Charcoal", "Midnight Blue"],
    sizes := ["EU 48", "EU 50", "EU 52", "EU 54"],
    isNew := true,
    featured := true,
    sellerTrustScore := 98)
  const M1Name: Localized := Localized("Bern Kaschmir-Mantel", "Manteau en Cachemire Bern", "Cappotto in Cashmere Bern", "پالتو کشمیر برن")
  const M1Description: Localized := Localized("Ein schwerer, architektonischer Mantel aus feinstem mongolischem Kaschmir.", "Un manteau architectural lourd, fabriqué à partir du meilleur cachemire.", "Un cappotto architettonico pesante, realizzato con il miglior cashmere.", "پالتویی سنگین و معماری‌گونه، ساخته شده از مرغوب‌ترین کشمیر مغولستان.")
  const M1Images: seq<string> := ["https://images.unsplash.com/photo-1539533018447-63fcce2678e3?auto=format&fit=crop&q=80&w=1200", "https://images.unsplash.com/photo-1544923246-77307dd654ca?auto=format&fit=crop&q=80&w=1200", "https://images.unsplash.com/photo-1551488831-00ddcb6c6bd3?auto=format&fit=crop&q=80&w=1200"]

  const W4: Product := Product(
    id := "w4",
    name := W4Name,
    price := 980,
    stock := 12,
    isActive := true,
    category := Women,
    description := W4Description,
    images := W4Images,
    colors := ["Oatmeal", "Soft Grey"],
    sizes := ["XS", "S", "M", "L"],
    isNew := true,
    featured := true,
    sellerTrustScore := 100)
  const W4Name: Localized := Localized("Alpin-Merinowolljacke", "Veste en Laine Mérinos Alpine", "Giacca in Lana Merino Alpina", "ژاکت پشمی مرینوس آلپ")
  const W4Description: Localized := Localized("Feiner Strick aus Bio-Merinowolle mit Schweizer Silberknöpfen.", "Maille fine en laine mérinos biologique avec boutons en argent suisse.", "Maglia fine in lana merino biologica con bottoni in argento svizzero.", "بافت ظریف از پشم مرینوس ارگانیک با جزئیات دکمه‌های نقره‌ای سوئیسی.")
  const W4Images: seq<string> := ["https://images.unsplash.com/photo-1591047139829-d91aecb6caea?auto=format&fit=crop&q=80&w=1200", "https://images.unsplash.com/photo-1620799140408-edc6dcb6d633?auto=format&fit=crop&q=80&w=1200"]

  const A2: Product := Product(
    id := "a2",
    name := A2Name,
    price := 3400,
    stock := 3,
    isActive := true,
    category := Accessories,
    description := A2Description,
    images := A2Images,
    colors := ["Stealth Black"],
    sizes := ["Cabin Size", "Check-in"],
    isNew := true,
    featured := true,
    sellerTrustScore := 99)
  const A2Name: Localized := Localized("Obsidian Reisekoffer", "Malle de Voyage Obsidienne", "Baule da Viaggio Ossidiana", "چمدان مسافرتی ابسیدین")
  const A2Description: Localized := Localized("Kohlefasergehäuse mit biometrischen Schlössern und ultraleichtem Design.", "Boîtier en fibre de carbone avec serrures biométriques.", "Involucro in fibra di carbonio con serrature biometriche.", "بدنه فیبر کربن تقویت شده با قفل‌های بیومتریک و طراحی فوق‌العاده سبک.")
  const A2Images: seq<string> := ["https://images.unsplash.com/photo-1553531384-cc64ac80f931?auto=format&fit=crop&q=80&w=1200", "https://images.unsplash.com/photo-1544816155-12df9643f363?auto=format&fit=crop&q=80&w=1200"]

  const M2: Product := Product(
    id := "m2",
    name := M2Name,
    price := 890,
    stock := 15,
    isActive := true,
    category := Men,
    description := M2Description,
    images := M2Images,
    colors := ["Stealth Black", "Glacier White"],
    sizes := ["M", "L", "XL"],
    isNew := true,
    featured := false,
    sellerTrustScore := 92)
  const M2Name: Localized := Localized("Alpine Tech-Jacke", "Veste Technique Alpine", "Giacca Tecnica Alpina", "ژاکت تکنیکال آلپاین")
  const M2Description: Localized := Localized("Dreilagige Schutzschicht, hoch atmungsaktiv und sturmfest.", "Couche de protection à trois couches, hautement respirante.", "Strato protettivo a tre strati, altamente traspirante.", "لایه محافظ سه لایه با قابلیت تنفس بالا و مقاومت در برابر طوفان‌های آلپ.")
  const M2Images: seq<string> := ["https://images.unsplash.com/photo-1551028719-00167b16eac5?auto=format&fit=crop&q=80&w=1200", "https://images.unsplash.com/photo-1544022613-e87ca75a784a?auto=format&fit=crop&q=80&w=1200"]

  const W1: Product := Product(
    id := "w1",
    name := W1Name,
    price := 1450,
    stock := 8,
    isActive := true,
    category := Women,
    description := W1Description,
    images := W1Images,
    colors := ["Ivory", "Onyx"],
    sizes := ["FR 34", "FR 36", "FR 38", "FR 40"],
    isNew := true,
    featured := true,
    sellerTrustScore := 100)
  const W1Name: Localized := Localized("Genfer Seidenkleid", "Robe en Soie de Genève", "Abito in Seta di Ginevra", "لباس ابریشمی ژنو")
  const W1Description: Localized := Localized("Fließende architektonische Silhouette aus schwerer Schweizer Seide.", "Silhouette architecturale fluide en soie suisse lourde.", "Silhouette architettonica fluida in pesante seta svizera.", "سیلوئت روان و معماری‌گونه از ابریشم سنگین سوئیسی.")
  const W1Images: seq<string> := ["https://images.unsplash.com/photo-1539109132381-315125a0b503?auto=format&fit=crop&q=80&w=1200", "https://images.unsplash.com/photo-1515377905703-c4788e51af15?auto=format&fit=crop&q=80&w=1200"]

  const M5: Product := Product(
    id := "m5",
    name := M5Name,
    price := 1850,
    stock := 4,
    isActive := true,
    category := Men,
    description := M5Description,
    images := M5Images,
    colors := ["Deep Brown", "Obsidian"],
    sizes := ["EU 48", "EU 50", "EU 52"],
    isNew := true,
    featured := true,
    sellerTrustScore := 96)
  const M5Name: Localized := Localized("Titan-Lederjacke", "Veste en Cuir Titan", "Giacca in Pelle Titan", "کت چرمی تیتان")
  const M5Description: Localized := Localized("Pflanzlich gegerbtes Büffelleder, abriebfest mit Kaltseidenfutter.", "Cuir de buffle à tannage végétal, résistant à l'abrasion.", "Pelle di bufalo a concia vegetale, resistente all'abrasione.", "چرم گاومیش دباغی شده با گیاه، مقاوم در برابر سایش با آستر ابریشم سرد.")
  const M5Images: seq<string> := ["https://images.unsplash.com/photo-1520975916090-3105956dac50?auto=format&fit=crop&q=80&w=1200", "https://images.unsplash.com/photo-1550009158-9ebf69173e03?auto=format&fit=crop&q=80&w=1200"]

  const A1: Product := Product(
    id := "a1",
    name := A1Name,
    price := 4200,
    stock := 2,
    isActive := true,
    category := Accessories,
    description := A1Description,
    images := A1Images,
    colors := ["Titanium", "Matte Black"],
    sizes := ["40mm", "42mm"],
    isNew := true,
    featured := true,
    sellerTrustScore := 99)
  const A1Name: Localized := Localized("Zürcher Chronometer", "Chronomètre de Zurich", "Cronometro di Zurigo", "کرونومتر زوریخ")
  const A1Description: Localized := Localized("Präzisionsuhrwerk mit Saphirglas und Gehäuse aus gebürstetem Titan.", "Mouvement de précision avec verre saphir und boîtier en titane brossé.", "Movimento di precisione con vetro zaffiro e cassa in titanio spazzolato.", "موتور بسیار دقیق با شیشه یاقوت کبود و بدنه تیتانیوم برس‌خورده.")
  const A1Images: seq<string> := ["https://images.unsplash.com/photo-1523170335258-f5ed11844a49?auto=format&fit=crop&q=80&w=1200", "https://images.unsplash.com/photo-1547996160-81dfa63595aa?auto=format&fit=crop&q=80&w=1200"]

  /** `products.find(p => p.id === id)`: the first product with the id. */
  function Find(products: seq<Product>, id: string): (r: Option<Product>)
    ensures r.None? <==> forall i :: 0 <= i < |products| ==> products[i].id != id
    ensures r.Some? ==> r.value in products && r.value.id == id
    ensures r.Some? ==> exists k :: (0 <= k < |products| && products[k] == r.value
                                     && forall j :: 0 <= j < k ==> products[j].id != id)
  {
    if products == [] then None
    else if products[0].id == id then Some(products[0])
    else
      var rest := Find(products[1..], id);
      assert forall i :: 1 <= i < |products| ==> products[i] == products[1..][i - 1];
      if rest.Some? then
        var k :| 0 <= k < |products[1..]| && products[1..][k] == rest.value
          && forall j :: 0 <= j < k ==> products[1..][j].id != id;
        assert products[k + 1] == rest.value;
        rest
      else rest
  }

  const GarmentTypes: seq<string> := ["Men", "Women", "Kids", "Accessories"]

  /** The category menu: "All" followed by every garment type. */
  const AllCategories: seq<string> := ["All"] + GarmentTypes

  /** The ids of the catalog, in catalog order. */
  const CatalogIds: seq<string> := ["m1", "w4", "a2", "m2", "w1", "m5", "a1"]

  lemma CatalogIdsInOrder()
    ensures |Products| == |CatalogIds|
    ensures forall i :: 0 <= i < |Products| ==> Products[i].id == CatalogIds[i]
  {
    assert Products[0].id == "m1" && Products[1].id == "w4" && Products[2].id == "a2";
    assert Products[3].id == "m2" && Products[4].id == "w1";
    assert Products[5].id == "m5" && Products[6].id == "a1";
  }

  /** The catalog holds seven products whose ids are pairwise distinct. */
  lemma CatalogIdsAreDistinct()
    ensures forall i, j :: 0 <= i < j < |Products| ==> Products[i].id != Products[j].id
  {
    CatalogIdsInOrder();
    forall i, j | 0 <= i < j < |Products| ensures Products[i].id != Products[j].id {
      assert Products[i].id == CatalogIds[i] && Products[j].id == CatalogIds[j];
    }
  }

  /** Every product has an image, a colour and a size to default to, and
      starts with positive stock. */
  lemma CatalogEntriesAreUsable()
    ensures forall p :: p in Products ==> |p.images| >= 1 && |p.colors| >= 1 && |p.sizes| >= 1
    ensures forall p :: p in Products ==> p.stock > 0 && p.isActive
    ensures [Products[0].stock, Products[1].stock, Products[2].stock, Products[3].stock,
             Products[4].stock, Products[5].stock, Products[6].stock] == [5, 12, 3, 15, 8, 4, 2]
  {
  }

  /** Every product's category name is a garment type, and no product is a
      Kids garment. */
  lemma CatalogCategoriesAreGarmentTypes()
    ensures forall p :: p in Products ==> p.category.Name() in GarmentTypes
    ensures forall p :: p in Products ==> p.category != Kids
    ensures forall c: Category :: c.Name() in GarmentTypes
  {
  }

  /** Category names of the catalog, by position: no product is a Kids
      garment. */
  lemma CatalogHasNoKids()
    ensures forall i :: 0 <= i < |Products| ==> Products[i].category.Name() != "Kids"
    ensures forall i :: 0 <= i < |Products| ==> Products[i].category.Name() in ["Men", "Women", "Accessories"]
  {
    assert Products[0].category == Men && Products[1].category == Women && Products[2].category == Accessories;
    assert Products[3].category == Men && Products[4].category == Women;
    assert Products[5].category == Men && Products[6].category == Accessories;
  }

  /** The menu starts with "All" and then lists the garment types in order. */
  lemma AllCategoriesShape()
    ensures |AllCategories| == 5 && AllCategories[0] == "All"
    ensures AllCategories[1..] == GarmentTypes
    ensures "All" !in GarmentTypes
  {
  }

  /** Exactly one product, m2, is not featured. */
  lemma FeaturedProducts()
    ensures forall i :: 0 <= i < |Products| ==> (Products[i].featured <==> Products[i].id != "m2")
  {
  }

  /** m1 and m2 are both men's garments, and m1's first colour and size are
      not offered for m2. */
  lemma M1AndM2Differ()
    ensures Products[0].id == "m1" && Products[3].id == "m2"
    ensures Products[0].category == Products[3].category
    ensures |Products[0].colors| > 0 && Products[0].colors[0] !in Products[3].colors
    ensures |Products[0].sizes| > 0 && Products[0].sizes[0] !in Products[3].sizes
  {
    assert Products[0].colors == ["Charcoal", "Midnight Blue"];
    assert Products[3].colors == ["Stealth Black", "Glacier White"];
    assert Products[0].sizes == ["EU 48", "EU 50", "EU 52", "EU 54"];
    assert Products[3].sizes == ["M", "L", "XL"];
  }
}
