/** The resale listing page: a photo is scanned by the AI service, whose
    answer fills the listing form with fallbacks for anything missing, and
    the listing can be submitted once. The scan's answer is an input. */
module ResalePage {
  import opened Prelude
  import opened Types
  import Store

  /** The listing form; every field is text. */
  datatype ListingForm = ListingForm(
    category: string,
    brand: string,
    condition: string,
    material: string,
    color: string,
    size: string,
    price: string)

  const EmptyForm := ListingForm("", "", "", "", "", "", "")

  /** A point the scan marks on the photo. */
  datatype HudPoint = HudPoint(x: int, y: int, caption: string)

  /** The scan's answer. Every field may be missing; the price is a whole
      number of francs when present. */
  datatype ScanResult = ScanResult(
    brand: Option<string>,
    material: Option<string>,
    color: Option<string>,
    suggestedSize: Option<string>,
    category: Option<string>,
    suggestedPrice: Option<int>,
    hudPoints: Option<seq<HudPoint>>)

  /** How a scan ends: with an answer that may be null, or with an error. */
  datatype ScanOutcome = Answered(result: Option<ScanResult>) | Failed

  /** The page's own state. */
  datatype Resale = Resale(
    image: Option<string>,
    isAnalyzing: bool,
    hudPoints: seq<HudPoint>,
    form: ListingForm,
    isSubmitted: bool)

  const InitialResale := Resale(None, false, [], EmptyForm, false)

  /** `value || fallback` on an optional string: a missing or empty value
      gives the fallback. */
  function OrElse(value: Option<string>, fallback: string): (r: string)
    ensures value.Some? && value.value != "" ==> r == value.value
    ensures value.None? || value.value == "" ==> r == fallback
  {
    if value.Some? && value.value != "" then value.value else fallback
  }

  /** `suggestedPrice?.toString() || '1200'`: the decimal text of the price
      when present (never empty, so never replaced), else 1200. */
  function PriceText(price: Option<int>): (r: string)
    ensures r != ""
    ensures price.None? ==> r == "1200"
    ensures price.Some? ==> r == IntToString(price.value)
  {
    if price.Some? then IntToString(price.value) else "1200"
  }

  /** The form an answer produces: every field is overwritten, with the
      fallbacks for missing ones, and the condition is always NEW_UNWORN. */
  function FormFromScan(r: ScanResult): (f: ListingForm)
    ensures f.brand == OrElse(r.brand, "ATELIER_SAMPLE")
    ensures f.material == OrElse(r.material, "VIRGIN_WOOL")
    ensures f.color == OrElse(r.color, "OBSIDIAN")
    ensures f.size == OrElse(r.suggestedSize, "EU_50")
    ensures f.category == OrElse(r.category, "MEN")
    ensures f.price == PriceText(r.suggestedPrice)
    ensures f.condition == "NEW_UNWORN"
  {
    ListingForm(
      category := OrElse(r.category, "MEN"),
      brand := OrElse(r.brand, "ATELIER_SAMPLE"),
      condition := "NEW_UNWORN",
      material := OrElse(r.material, "VIRGIN_WOOL"),
      color := OrElse(r.color, "OBSIDIAN"),
      size := OrElse(r.suggestedSize, "EU_50"),
      price := PriceText(r.suggestedPrice))
  }

  /** Every field of a scanned form is filled. */
  lemma ScannedFormIsComplete(r: ScanResult)
    ensures var f := FormFromScan(r);
      f.category != "" && f.brand != "" && f.condition != "" && f.material != ""
      && f.color != "" && f.size != "" && f.price != ""
  {
  }

  /** An empty answer falls back to the sample listing. */
  lemma EmptyAnswerGivesSample()
    ensures FormFromScan(ScanResult(None, None, None, None, None, None, None))
      == ListingForm("MEN", "ATELIER_SAMPLE", "NEW_UNWORN", "VIRGIN_WOOL", "OBSIDIAN", "EU_50", "1200")
  {
  }

  /** Choosing a photo shows it and starts a scan with the marks cleared. */
  function StartScan(p: Resale, img: string): (r: Resale)
    ensures r.image == Some(img) && r.isAnalyzing && r.hudPoints == []
    ensures r.form == p.form && r.isSubmitted == p.isSubmitted
  {
    p.(image := Some(img), isAnalyzing := true, hudPoints := [])
  }

  /** The end of a scan: an answer overwrites the form, its marks replace
      the cleared ones when it carries any list of them, and the analysing
      flag is dropped whatever happened. */
  function FinishScan(p: Resale, outcome: ScanOutcome): (r: Resale)
    ensures !r.isAnalyzing && r.image == p.image && r.isSubmitted == p.isSubmitted
    ensures outcome.Answered? && outcome.result.Some? ==> r.form == FormFromScan(outcome.result.value)
    ensures outcome.Failed? || outcome.result.None? ==> r.form == p.form && r.hudPoints == p.hudPoints
    ensures outcome.Answered? && outcome.result.Some? && outcome.result.value.hudPoints.None? ==> r.hudPoints == p.hudPoints
    ensures outcome.Answered? && outcome.result.Some? && outcome.result.value.hudPoints.Some? ==>
      r.hudPoints == outcome.result.value.hudPoints.value
  {
    match outcome
    case Failed => p.(isAnalyzing := false)
    case Answered(None) => p.(isAnalyzing := false)
    case Answered(Some(res)) =>
      var hud := if res.hudPoints.Some? then res.hudPoints.value else p.hudPoints;
      p.(form := FormFromScan(res), hudPoints := hud, isAnalyzing := false)
  }

  /** A whole scan from choosing the photo to its end: a null answer or an
      error keeps the form, and the marks are left empty unless the answer
      brought its own. */
  lemma ScanEffect(p: Resale, img: string, outcome: ScanOutcome)
    ensures var r := FinishScan(StartScan(p, img), outcome);
      !r.isAnalyzing && r.image == Some(img)
      && (outcome.Failed? || outcome.result.None? ==> r.form == p.form && r.hudPoints == [])
      && (outcome.Answered? && outcome.result.Some? && outcome.result.value.hudPoints.None? ==> r.hudPoints == [])
  {
  }

  /** The listing button is enabled with a photo, outside a scan, before
      the first submission. */
  predicate CanSubmit(p: Resale)
  {
    p.image.Some? && p.image.value != "" && !p.isAnalyzing && !p.isSubmitted
  }

  /** The options of the category select. */
  datatype CategoryOption = Men | Women | Accessories

  function CategoryText(c: CategoryOption): (t: string)
    ensures t in {"MEN", "WOMEN", "ACCESSORIES"}
  {
    match c
    case Men => "MEN"
    case Women => "WOMEN"
    case Accessories => "ACCESSORIES"
  }

  /** What the visitor does on the page. Only the brand field, the category
      select and the price field have change handlers; the size field has
      none, and the material, colour and condition have no control. */
  datatype ResaleEvent =
    | ChoosePhoto(img: string)
    | ScanEnded(outcome: ScanOutcome)
    | EditBrand(brand: string)
    | ChooseCategory(category: CategoryOption)
    | EditPrice(price: string)
    | Submit

  /** An edit of the visitor's: one of the three wired controls. */
  predicate IsEdit(e: ResaleEvent)
  {
    e.EditBrand? || e.ChooseCategory? || e.EditPrice?
  }

  /** One event; returns the new page, the new session and whether a listing
      was submitted. A press on the disabled button does nothing. Submitting
      asks the session to count the listing. */
  function Handle(p: Resale, s: Store.Session, e: ResaleEvent): (r: (Resale, Store.Session, bool))
    ensures r.2 <==> e.Submit? && CanSubmit(p)
    ensures r.2 ==> r.0 == p.(isSubmitted := true)
    ensures p.isSubmitted ==> r.0.isSubmitted
    ensures IsEdit(e) ==> (r.1 == s && r.0.form.condition == p.form.condition && r.0.form.material == p.form.material
      && r.0.form.color == p.form.color && r.0.form.size == p.form.size)
    ensures IsEdit(e) ==> r.0 == p.(form := r.0.form)
    ensures e.EditBrand? ==> (r.0.form.brand == e.brand && r.0.form.category == p.form.category
      && r.0.form.price == p.form.price)
    ensures e.ChooseCategory? ==> (r.0.form.category == CategoryText(e.category) && r.0.form.brand == p.form.brand
      && r.0.form.price == p.form.price)
    ensures e.EditPrice? ==> (r.0.form.price == e.price && r.0.form.brand == p.form.brand
      && r.0.form.category == p.form.category)
  {
    match e
    case ChoosePhoto(img) => (StartScan(p, img), s, false)
    case ScanEnded(o) => (FinishScan(p, o), s, false)
    case EditBrand(b) => (p.(form := p.form.(brand := b)), s, false)
    case ChooseCategory(c) => (p.(form := p.form.(category := CategoryText(c))), s, false)
    case EditPrice(v) => (p.(form := p.form.(price := v)), s, false)
    case Submit =>
      if CanSubmit(p) then (p.(isSubmitted := true), Store.Step(s, Store.IncrementListingCountA), true)
      else (p, s, false)
  }

  /** Replays events and counts the submissions. */
  function Run(p: Resale, s: Store.Session, events: seq<ResaleEvent>): (r: (Resale, Store.Session, nat))
    decreases |events|
  {
    if events == [] then (p, s, 0)
    else
      var h := Handle(p, s, events[0]);
      var rest := Run(h.0, h.1, events[1..]);
      (rest.0, rest.1, rest.2 + if h.2 then 1 else 0)
  }

  /** A series of edits never touches the condition, material, colour or
      size the scan put in the form, submits nothing and leaves the session
      alone. */
  lemma {:induction false} EditsKeepScannedFields(p: Resale, s: Store.Session, events: seq<ResaleEvent>)
    requires forall i :: 0 <= i < |events| ==> IsEdit(events[i])
    ensures var r := Run(p, s, events);
      r.0.form.condition == p.form.condition && r.0.form.material == p.form.material
      && r.0.form.color == p.form.color && r.0.form.size == p.form.size
      && r.0.image == p.image && r.0.isSubmitted == p.isSubmitted
      && r.1 == s && r.2 == 0
    decreases |events|
  {
    if events != [] {
      var h := Handle(p, s, events[0]);
      EditsKeepScannedFields(h.0, h.1, events[1..]);
    }
  }

  /** At most one listing is ever submitted from a page, and none once one
      has been. */
  lemma {:induction false} AtMostOneSubmission(p: Resale, s: Store.Session, events: seq<ResaleEvent>)
    ensures Run(p, s, events).2 <= 1
    ensures p.isSubmitted ==> Run(p, s, events).2 == 0
    ensures p.isSubmitted ==> Run(p, s, events).0.isSubmitted
    decreases |events|
  {
    if events != [] {
      var h := Handle(p, s, events[0]);
      AtMostOneSubmission(h.0, h.1, events[1..]);
    }
  }

  /** The session's listing counter does not move: the store's
      incrementListingCount does nothing. */
  lemma SubmittingLeavesSessionAlone(p: Resale, s: Store.Session)
    ensures Handle(p, s, Submit).1 == s
  {
  }

  /** Without a user the page redirects to /auth. */
  function Redirect(user: Option<User>): (r: Option<string>)
    ensures r.None? <==> user.Some?
    ensures r.Some? ==> r.value == "/auth"
  {
    if user.None? then Some("/auth") else None
  }
}
