# Swiss Atelier storefront — a Dafny model

Swiss Atelier is a single-page storefront for a Swiss couture house. It is
written in TypeScript and React. Its visible features are calls to a hosted
generative-AI service. Underneath them is ordinary sequential logic, and
that logic is what this project models and proves things about:

- the session state container: cart, wishlist, waitlist, orders, login and
  translation lookup;
- the static catalog, the type enumerations and the two translation tables;
- the list views: subtotals, catalog search, admin filter and sort,
  related and featured products, and the bottom bar's badge and tab rule;
- the admin inventory editor and its newest-first audit log;
- the validators and mappers: the e-mail pattern, resale form defaulting,
  the tier quota, search URLs, right-to-left detection and chat exchanges;
- the small state machines: the checkout steps, the layout's health guard,
  the bounded engine log, the retry policy, the merge of the model's design
  answer, live tool calls and gapless audio scheduling.

There is one module per source file. `Prelude` holds the helpers that
stand for JavaScript built-ins: `filter`, `slice`, `trim`, `split`, `join`,
`toLowerCase`, `padStart`, and `<` on strings.

Everything nondeterministic is a parameter of the operation that uses it:

- the AI service's answers and errors;
- clock readings and random draws;
- generated ids;
- the browser's confirm dialog.

Each event handler is one atomic transition. A timer callback is one later
transition.

## Model

| member | source | states |
|---|---|---|
| Prelude.Filter | store/context.tsx:102 | Array.prototype.filter never lengthens a list |
| Prelude.FilterIsSubsequence | store/context.tsx:102 | a filtered list keeps its elements in their original order |
| Prelude.FilterAppend | pages/ProductList.tsx:21-26 | filtering a concatenation filters each part |
| Prelude.FilterTwice | pages/ProductList.tsx:21-26 | two filters in a row are one filter by both tests |
| Prelude.FilterKeepsAll | store/context.tsx:102 | a filter that every element passes changes nothing |
| Prelude.FilterKeepsDistinct | store/context.tsx:114 | filtering a list whose keys are distinct leaves them distinct |
| Prelude.Take | pages/Home.tsx:21 | slice(0, n) keeps the first min(length, n) elements |
| Prelude.LexLessIrreflexive | pages/AdminProducts.tsx:43-44 | no string is less than itself under JavaScript's `<` |
| Prelude.LexLessTransitive | pages/AdminProducts.tsx:43-44 | JavaScript's `<` on strings is transitive |
| Prelude.LexLessTotal | pages/AdminProducts.tsx:43-44 | of two different strings one is less than the other |
| Prelude.LowerChar | pages/ProductList.tsx:20 | toLowerCase maps an ASCII capital to a small letter |
| Prelude.Lower | pages/ProductList.tsx:20 | toLowerCase keeps the length and lowers character by character |
| Prelude.TrimStart | components/Navbar.tsx:25 | removing leading white space leaves a suffix that starts with no white space, and everything removed was white space |
| Prelude.TrimEnd | components/Navbar.tsx:25 | removing trailing white space leaves a prefix that ends with no white space, and everything removed was white space |
| Prelude.TrimEmptyIffBlank | components/ChatBot.tsx:24 | trim gives the empty string exactly when every character is white space |
| Prelude.Join | components/Navbar.tsx:40 | joining no parts gives the empty string and joining one part gives that part |
| Prelude.Split | services/gemini.ts:41 | split always gives at least one piece, and no piece holds the separator |
| Prelude.SplitNone | services/gemini.ts:41 | a string without the separator splits into itself alone |
| Prelude.SplitAt | store/context.tsx:76 | the first separator ends the first piece |
| Prelude.SplitCons | store/context.tsx:76 | a piece without the separator followed by the separator starts the split |
| Prelude.JoinSplit | store/context.tsx:76 | joining the pieces of a split with its separator gives back the string |
| Prelude.NatToString | pages/Home.tsx:39 | a whole number prints as decimal digits that denote it, without a leading zero; one digit exactly below 10, two below 100, three below 1000 |
| Prelude.DecimalValuePositive | pages/Home.tsx:39 | a digit string led by a non-zero digit denotes a positive number |
| Prelude.NatToStringOfDecimalValue | pages/Home.tsx:39 | reading back: every digit string without a leading zero is the printed form of the number it denotes |
| Prelude.IntToString | pages/ResaleProtocol.tsx:32 | a number prints with a leading minus exactly when negative, followed by decimal digits without a leading zero that denote its magnitude |
| Prelude.PadStart | pages/Home.tsx:39 | padStart reaches the width with the fill character in front and keeps the string at the end |
| Types.EnumerationsAreComplete | types.ts:2-4 | each closed union (languages, roles, tiers, order statuses, admin actions) is listed once per value: 4 languages, 3 roles, 4 tiers, 3 statuses, 3 actions |
| Types.LanguageCodesAreDistinct | types.ts:2 | the language codes are exactly de, fr, it and fa, and no two languages share one |
| Types.CategoryNamesAreDistinct | types.ts:69 | the category names are exactly Men, Women, Kids and Accessories, and no two categories share one |
| Translations.Table | locales/translations.ts:2-23 | a table exists exactly for German and Persian |
| Translations.Entry | locales/translations.ts:2-23 | looking up a key gives its text when the table has it and the empty (falsy) text otherwise |
| Translations.TablesHaveSameKeys | locales/translations.ts:3-22 | the German and the Persian tables translate exactly the same keys |
| Translations.EntriesAreNonEmpty | locales/translations.ts:3-22 | no entry of either table is the empty text, so the `\|\|` fallback never skips a present entry |
| Translations.CategoryKeysPresentTiersAbsent | locales/translations.ts:11-21 | all, men, women, kids and accessories are keys of both tables, and tiers is a key of neither |
| Catalog.Find | pages/ProductDetail.tsx:13 | absent exactly when no product has the id; otherwise a product of the list with that id, and no earlier product has it |
| Catalog.CatalogIdsInOrder | constants.tsx:4-223 | the catalog holds seven products with ids m1, w4, a2, m2, w1, m5, a1 in that order |
| Catalog.CatalogIdsAreDistinct | constants.tsx:4-223 | no two catalog products share an id |
| Catalog.CatalogEntriesAreUsable | constants.tsx:4-223 | every product has an image, a colour and a size, is active, and starts with stock 5, 12, 3, 15, 8, 4 and 2 in catalog order |
| Catalog.CatalogCategoriesAreGarmentTypes | constants.tsx:225 | every product's category is one of the garment types, no product is a Kids garment, and every category name is a garment type |
| Catalog.CatalogHasNoKids | constants.tsx:18-207 | by position, every product is Men, Women or Accessories and none is Kids |
| Catalog.AllCategoriesShape | constants.tsx:225-226 | the menu is All followed by the four garment types, and All is not a garment type |
| Catalog.FeaturedProducts | constants.tsx:32-220 | a product is featured exactly when it is not m2 |
| Catalog.M1AndM2Differ | constants.tsx:6-133 | m1 and m2 are both men's garments, and m1's first colour and first size are not offered for m2 |
| Store.FirstLine | store/context.tsx:95 | the position `find` stops at: absent when no line has the id, colour and size, otherwise the first such line |
| Store.AddToCart | store/context.tsx:93-99 | an existing line with the same id, colour and size gains one unit and nothing else changes; otherwise a new one-unit line is appended |
| Store.AddToCartKeepsLinesDistinct | store/context.tsx:93-99 | adding keeps at most one line per (id, colour, size) and the cart then has a line for that key |
| Store.AddToCartAddsOneUnit | store/context.tsx:93-99 | adding raises the total number of units by exactly one |
| Store.AddToCartKeepsQuantitiesPositive | store/context.tsx:93-99 | every line still holds at least one unit after adding |
| Store.RemoveFromCart | store/context.tsx:101-103 | the result holds, in order, exactly the lines that are not the given one |
| Store.RemoveAbsentLine | store/context.tsx:101-103 | removing a line that is not in the cart leaves the cart unchanged |
| Store.RemoveFromCartKeepsInvariants | store/context.tsx:101-103 | removal keeps one line per key and every quantity positive |
| Store.UpdateQuantity | store/context.tsx:105-107 | only the matching line changes, to max(1, quantity + delta); the order and length of the cart stay the same |
| Store.UpdateQuantityKeepsInvariants | store/context.tsx:105-107 | updating keeps lines distinct and quantities at least one |
| Store.AddToWishlist | store/context.tsx:109-111 | the product is appended only when no entry has its id |
| Store.AddToWishlistNoDuplicates | store/context.tsx:109-111 | adding keeps wishlist ids distinct, puts the id in the wishlist, and adding twice equals adding once |
| Store.RemoveFromWishlist | store/context.tsx:113-115 | drops every entry with the id and keeps the others in order |
| Store.RemoveFromWishlistKeepsDistinct | store/context.tsx:113-117 | removal keeps ids distinct and the id is no longer in the wishlist |
| Store.JoinWaitlist | store/context.tsx:59-62 | without a signed-in user nothing changes; otherwise one entry for the product and the user is appended |
| Store.JoinWaitlistThenOn | store/context.tsx:59-64 | after joining, a signed-in user is on the product's waitlist; a signed-out visitor is on no waitlist; joining takes nobody off |
| Store.EmailName | store/context.tsx:76 | the text before the first '@', or the whole address when it has none |
| Store.EmailNameOfAddress | store/context.tsx:76 | the name of `local@domain` is `local` whenever `local` has no '@' |
| Store.Login | store/context.tsx:72-87 | a fresh active account with the given email and role, trust 100, the Free tier and no listings or credits |
| Store.LoginAdminRights | store/context.tsx:72-89 | signing in gives administrator rights exactly when the role is not USER; nobody signed in has them |
| Store.TranslateAsWritten | store/context.tsx:90 | the lookup as written: defined for German and Persian, falling back to the German text and then to the key; undefined (a thrown TypeError) for French and Italian |
| Store.Translate | store/context.tsx:90 | the corrected lookup never shows an empty text for a non-empty key, shows a translation (not the key) for every key of the German table, and shows the key itself when no table has it |
| Store.TranslateAgreesWhereDefined | store/context.tsx:90 | wherever the lookup as written returns, the corrected lookup returns the same text |
| Store.TranslateFrenchThrows | store/context.tsx:90 | with French selected the lookup as written throws for every key |
| Store.TranslateFallbacks | store/context.tsx:90 | French and Italian read the German text; a key missing everywhere reads as itself |
| Store.Direction | store/context.tsx:66-70 | the document direction is rtl for Persian and ltr for every other language |
| Store.Step | store/context.tsx:59-129 | each call of the container changes only its own part of the session: cart calls only the cart, wishlist calls only the wishlist, and so on for the waitlist, the orders, the user and the language |
| Store.StepKeepsWellFormed | store/context.tsx:59-121 | every operation of the container keeps one cart line per key, positive quantities and a wishlist without repeated ids |
| Store.SessionBookkeeping | store/context.tsx:119-129 | a new order goes first with the older ones after it, clearing empties the cart, logout removes the user and the rights, and upgradeTier and incrementListingCount change nothing |
| CartPage.Subtotal | pages/Cart.tsx:10 | with no negative price or quantity the subtotal is not negative |
| CartPage.LineTotals | pages/Cart.tsx:51 | one printed total per line, in cart order, each the line's price times its quantity |
| CartPage.SubtotalIsSumOfLineTotals | pages/Cart.tsx:10-62 | the total in the summary box equals the sum of the printed line totals |
| CartPage.SubtotalAppend | pages/Cart.tsx:10 | the subtotal of two carts joined is the sum of their subtotals |
| CartPage.AddToCartRaisesSubtotal | pages/Cart.tsx:10 | adding a unit raises the subtotal by exactly one unit price: the existing line's price, or the product's price for a new line |
| CartPage.Render | pages/Cart.tsx:12-62 | the empty view appears exactly for an empty cart; otherwise the header counts lines and the summary total is the sum of the line totals |
| CartPage.LinesAtMostUnits | pages/Cart.tsx:26 | with positive quantities the number of lines is at most the number of units, with equality exactly when every line holds one unit |
| CartPage.UnitCountIsLineCount | pages/Cart.tsx:26 | the UNITS counter never exceeds the units in the cart and equals it exactly when every line holds one unit |
| CartPage.Purge | pages/Cart.tsx:47 | the purge control keeps, in order, every line except those with the pressed line's key |
| CartPage.Decrement | pages/Cart.tsx:43 | the minus control takes one unit from the pressed line, or leaves it at one unit, and keeps every other line, in place |
| CartPage.Increment | pages/Cart.tsx:45 | the plus control adds one unit to the pressed line and keeps every other line, in place |
| CartPage.DecrementStopsAtOne | pages/Cart.tsx:43 | the minus control on a one-unit line leaves it at one unit |
| CartPage.DecrementUndoesIncrement | pages/Cart.tsx:43-45 | pressing plus and then minus on a line gives back the cart, when every quantity is positive |
| CartPage.ControlsKeepLines | pages/Cart.tsx:43-45 | plus and minus never add, drop or reorder lines |
| BottomTabBar.CartCount | components/BottomTab.tsx:9 | with positive quantities the badge count is at least the number of lines |
| BottomTabBar.CartCountIsTotalQuantity | components/BottomTab.tsx:9 | the badge's left fold counts the same units as the cart's total quantity |
| BottomTabBar.TotalQuantitySnoc | components/BottomTab.tsx:9 | one more line raises the unit count by that line's quantity |
| BottomTabBar.Badge | components/BottomTab.tsx:47-51 | the badge shows exactly when the count is positive, and then shows the count |
| BottomTabBar.BadgeIffLines | components/BottomTab.tsx:9-51 | with positive quantities the badge shows exactly when the cart has a line, and counts at least one unit per line |
| BottomTabBar.IsActive | components/BottomTab.tsx:71 | defines when a tab is lit: on its own path, and for the catalog tab also on every path starting with /product; AtMostOneActive and ProductPageLightsCatalog state its properties |
| BottomTabBar.OnlyCatalogPathLooksLikeProduct | components/BottomTab.tsx:11-64 | no tab path other than /products starts with /product |
| BottomTabBar.AtMostOneActive | components/BottomTab.tsx:71 | whatever the current path, at most one tab is lit |
| BottomTabBar.ProductPageLightsCatalog | components/BottomTab.tsx:71 | a product page lights the catalog tab and no other |
| CheckoutPage.NewOrder | pages/Checkout.tsx:16-28 | the order holds the cart's lines, is ARCHIVED, has an id made of SA-ORD- and the suffix, and its total equals the sum of its own lines |
| CheckoutPage.Next | pages/Checkout.tsx:18-130 | the step only changes from shipping to payment or to confirmation, and entering payment leaves the session untouched |
| CheckoutPage.AuthorizeCapturesCart | pages/Checkout.tsx:18-130 | authorising snapshots the cart as the pending order, starts processing, leaves the session alone and disables the button |
| CheckoutPage.SettleRecordsOrder | pages/Checkout.tsx:30-35 | when the delay ends the order heads the order list, the cart is empty, processing stops and the confirmation is shown even with the empty cart |
| CheckoutPage.NextKeepsConsistent | pages/Checkout.tsx:16-40 | every event keeps a pending order exactly while processing and every recorded order equal to its lines' total, and moves the step forward by at most one |
| CheckoutPage.RunKeepsConsistent | pages/Checkout.tsx:16-40 | over any series of events the flow stays consistent and the step never moves back |
| CheckoutPage.InitialIsConsistent | pages/Checkout.tsx:12-14 | the page starts consistent, on the shipping step |
| EditorialPage.Looks | pages/Editorial.tsx:11-26 | two looks: the first holds catalog products 0 and 1, the second products 2 and 3 |
| EditorialPage.PairsAreDisjoint | pages/Editorial.tsx:17-24 | two adjacent pairs cut from usable products with distinct ids share no product, and each pair is usable with distinct ids |
| EditorialPage.LooksAreDisjoint | pages/Editorial.tsx:11-26 | the two looks share no garment, and each holds two usable garments with distinct ids |
| EditorialPage.AcquireLook | pages/Editorial.tsx:28-31 | acquiring a look keeps every existing line in its place, with its key and at least its units, and never shortens the cart |
| EditorialPage.AcquireLookAddsUnits | pages/Editorial.tsx:28-31 | acquiring a look adds exactly one unit per garment, adds at most one line per garment and drops no line |
| EditorialPage.FirstPassFrom | pages/Editorial.tsx:28-31 | adding the remaining garments after the first k completes one one-unit line per garment |
| EditorialPage.SecondPassFrom | pages/Editorial.tsx:28-31 | adding the remaining garments again, once the first k hold two units, brings every line to two units |
| EditorialPage.AcquireLookTwice | pages/Editorial.tsx:28-31 | from an empty cart a look of distinct garments gives one one-unit line per garment in its first colour and size; a second acquisition raises each of them to two units instead of adding lines |
| EditorialPage.CuratedLookTwice | pages/Editorial.tsx:11-31 | either curated look, acquired twice from an empty cart, leaves exactly its two garments with two units each |
| HomePage.CountFeatured | pages/Home.tsx:21 | counts the featured products of a list, never more than its length |
| HomePage.CountPrefixStep | pages/Home.tsx:21 | the featured count of a prefix is the head's share plus the count of the tail's prefix |
| HomePage.FeaturedOf | pages/Home.tsx:21 | the featured products of a list, written out on their own, number exactly the featured count |
| HomePage.FeaturedOfIsFilter | pages/Home.tsx:21 | the written-out featured products are exactly what `filter(p => p.featured)` keeps |
| HomePage.FeaturedAt | pages/Home.tsx:21 | a featured product with k featured products before it is at place k of the featured products |
| HomePage.FeaturedPositions | pages/Home.tsx:21 | every featured product sits in the featured filter at the place given by the featured products before it |
| HomePage.Featured | pages/Home.tsx:21 | the strip shows min(4, number of featured products) products, all featured, in catalog order; the featured product with k featured products before it, for k below 4, is shown at place k, so the first four featured products are shown and none is skipped for a later one |
| HomePage.StepKept | pages/Home.tsx:21 | a filter step that keeps the head puts it first |
| HomePage.StepDropped | pages/Home.tsx:21 | a filter step that drops the head leaves the filter of the tail |
| HomePage.KeepFirstFour | pages/Home.tsx:21 | when only the fourth of the first five is dropped, the first four kept are the first, second, third and fifth |
| HomePage.HomeShowsFirstFourFeatured | pages/Home.tsx:21 | on the shipped catalog the strip shows m1, w4, a2 and w1, skipping m2 |
| HomePage.Tick | pages/Home.tsx:15 | the counter goes up by one and wraps from 999 to 0, staying in [0, 1000) |
| HomePage.TicksCountModulo | pages/Home.tsx:10-19 | after n ticks from 0 the counter reads n modulo 1000 |
| HomePage.TickerText | pages/Home.tsx:39 | the displayed counter has exactly three digits and ends with the counter's decimal digits |
| HomePage.Stabilize | pages/Home.tsx:16 | the reading is the drifted value clamped to [99.5, 100]: unchanged inside, 100 above, 99.5 below |
| HomePage.Stability | pages/Home.tsx:13-16 | after any series of ticks the reading is between 99.5 and 100 |
| HomePage.StabilityStaysClamped | pages/Home.tsx:11-16 | for any random draws in [0, 1) the reading stays in [99.5, 100] and moves by at most 0.025 per tick |
| ProductListPage.CurrentCategory | pages/ProductList.tsx:14 | a missing or empty cat parameter reads as All; any other value is taken as it is |
| ProductListPage.FilteredProducts | pages/ProductList.tsx:17-28 | a product is listed exactly when it matches the query (skipped when empty) and the category (skipped for All); the list keeps catalog order |
| ProductListPage.TwoFiltersAreOne | pages/ProductList.tsx:17-28 | the text filter followed by the category filter equals one filter by the conjunction of both tests |
| ProductListPage.NoFilterListsEverything | pages/ProductList.tsx:17-28 | with no query and All selected the whole catalog is listed in order |
| ProductListPage.AbsentCategoryListsNothing | pages/ProductList.tsx:26 | a category no product has lists nothing, whatever the query |
| ProductListPage.KidsListsNothing | pages/ProductList.tsx:26-59 | on the shipped catalog the Kids menu entry, and a category outside the menu, list nothing |
| ProductListPage.Insights | pages/ProductList.tsx:30-36 | grounding is requested, with the query, exactly when a non-empty query found no product; otherwise the insights are cleared |
| ProductListPage.SelectCategory | pages/ProductList.tsx:62-66 | All deletes the cat parameter, any other entry sets it; every other parameter is kept as it was |
| ProductListPage.SelectCategoryRoundTrip | pages/ProductList.tsx:14-66 | choosing a menu entry makes it the current category and keeps the search query |
| ProductListPage.LowerMenuEntries | pages/ProductList.tsx:49-69 | the lower-cased menu entries are all, men, women, kids and accessories |
| ProductListPage.Heading | pages/ProductList.tsx:49 | with a query the heading is "Query: " and the query; without one it is the lookup of the lower-cased category, which is missing exactly for French and Italian and otherwise never empty |
| ProductListPage.MenuHeadingsAreTranslated | pages/ProductList.tsx:49 | without a query the heading of a menu category looks up a key of the German table: in German and Persian it shows a translated word, never the raw key; in French and Italian the lookup throws and there is no heading |
| ProductDetailPage.FirstOr | pages/ProductDetail.tsx:14-17 | the first entry of a non-empty list, the empty text for an empty one |
| ProductDetailPage.Mount | pages/ProductDetail.tsx:13-21 | a fresh page selects the product's first image, colour and size, at index 0, on the DETAILS tab with no success label; an unknown product selects nothing |
| ProductDetailPage.Thumbnail | pages/ProductDetail.tsx:39-42 | a thumbnail click shows that image and marks that index, changing nothing else |
| ProductDetailPage.ProductChangedAsWritten | pages/ProductDetail.tsx:25-37 | the effect as written resets the gallery to the new product's first image and keeps the previous colour and size |
| ProductDetailPage.StaleSelectionAfterNavigation | App.tsx:39 | on the page as written, opening m1 and then following the related link to m2 (same category) leaves m1's Charcoal / EU 48 selected, which m2 does not offer, and the acquisition button then puts m2 in the cart in Charcoal / EU 48 |
| ProductDetailPage.ProductChanged | pages/ProductDetail.tsx:16-37 | the corrected effect resets the gallery and selects the new product's first colour and first size, keeping the tab and the success label |
| ProductDetailPage.ProductChangedSelectsOfferedOptions | pages/ProductDetail.tsx:16-37 | after a mount or a navigation with the reset, the selected colour and size are offered by the product on screen |
| ProductDetailPage.Related | pages/ProductDetail.tsx:23 | at most six other products of the same category, in catalog order, none for an unknown product; when fewer than six are shown, every such product is shown |
| ProductDetailPage.Render | pages/ProductDetail.tsx:44-162 | nothing is shown exactly for an unknown id; the waitlist button replaces the acquisition button exactly at zero stock and is disabled exactly when the visitor is on the waitlist; the light is green exactly above two units |
| ProductDetailPage.ToggleWishlistFlips | pages/ProductDetail.tsx:79 | the heart flips the product's wishlist membership and leaves the cart, the waitlist and the user alone |
| ProductDetailPage.PressTriggerEffect | pages/ProductDetail.tsx:153-162 | in stock the button adds one unit with the selected colour and size and leaves the waitlist; out of stock it leaves the cart and puts a signed-in visitor on the waitlist |
| ProductDetailPage.FreshAcquisitionUsesDefaults | pages/ProductDetail.tsx:16-159 | pressing the button on a fresh page of an in-stock product puts a line with the first colour and first size in the cart and shows the success label |
| ProductDetailPage.NavigationResetsGallery | pages/ProductDetail.tsx:25-42 | a thumbnail click shows its image, and a following navigation shows the new product's first image at index 0 without touching the session |
| ProductDetailPage.Press | pages/ProductDetail.tsx:25-159 | one control on the page as written: only the heart and the acquisition or waitlist button touch the session, only the colour and size buttons change the selection, a navigation resets the gallery to the new product's first image at index 0, and an in-stock acquisition shows the success label |
| ProductDetailPage.TriggerAddsSelection | pages/ProductDetail.tsx:159 | for an in-stock product the acquisition button leaves a cart line with the product and the selected colour and size |
| ProfilePage.Limit | pages/Profile.tsx:27 | the monthly listing limit is 5 exactly for Free, 50 exactly for Pro and 9999 for every other tier |
| ProfilePage.LimitGrowsWithTier | pages/Profile.tsx:27 | a higher tier never has a lower limit |
| ProfilePage.UsagePercent | pages/Profile.tsx:28 | the bar is at most 100, not negative for a non-negative count, full exactly when the limit is reached, and otherwise the used share of the limit in percent |
| ProfilePage.UsagePercentIsMonotone | pages/Profile.tsx:28 | more listings never shrink the bar |
| ProfilePage.TrustIsGreen | pages/Profile.tsx:70 | the trust score is green exactly from 95 up |
| ProfilePage.Render | pages/Profile.tsx:25-117 | a visitor without a user is redirected to /auth; the dashboard shows the tier's limit, the bar and the trust colour, and shows CALIBRATING exactly while an audit runs and the held report otherwise; the archive tab counts the orders and shows the empty notice exactly without orders; tiers and security show no panel |
| ProfilePage.UserChanged | pages/Profile.tsx:14-23 | an audit starts exactly for a signed-in user while no (truthy) report is held, and then only the running flag changes |
| ProfilePage.ReportArrived | pages/Profile.tsx:18-21 | the report is stored and the running flag dropped, the tab unchanged |
| ProfilePage.AuditSettledAsWritten | pages/Profile.tsx:18-21 | an answer is stored and drops the running flag; a rejection, having no handler, leaves the page as it was |
| ProfilePage.RejectedAuditStaysCalibrating | pages/Profile.tsx:14-23 | after an audit the page started is rejected, the running flag stays set, the dashboard shows CALIBRATING, and neither a tab click nor a later user change clears it |
| ProfilePage.AuditSettled | pages/Profile.tsx:18-21 | the corrected settlement: the running flag is dropped in every outcome, an answer is stored and a rejection keeps the held report |
| ProfilePage.AuditSettledAgrees | pages/Profile.tsx:18-21 | the corrected settlement equals the one as written on an answer and differs only in the running flag on a rejection |
| ProfilePage.RejectedAuditIsRetried | pages/Profile.tsx:14-23 | with the corrected settlement a rejected audit leaves the dashboard out of CALIBRATING and the next user change starts the audit again |
| ProfilePage.AuditRunsOncePerReport | pages/Profile.tsx:14-23 | once a non-empty report has arrived no user change starts another audit, while without a report every signed-in change does |
| ProfilePage.ChooseTab | pages/Profile.tsx:45-53 | a tab button selects its tab and leaves the report and the running flag alone |
| ProfilePage.ChooseAll | pages/Profile.tsx:45-53 | after a series of tab clicks the last clicked tab is selected |
| ProfilePage.SecurityIsUnreachable | pages/Profile.tsx:10-45 | no series of tab clicks from the initial page reaches the security tab |
| AuthPage.LastAt | pages/Auth.tsx:19 | no position when the text has no '@'; otherwise the position of an '@' with no '@' after it |
| AuthPage.JoinMembers | pages/Auth.tsx:19 | a character of a joined text comes from the separator or from one of the pieces |
| AuthPage.SplitAvoids | pages/Auth.tsx:19 | a character that is not the separator and is in no piece is not in the text |
| AuthPage.DomainHasNoAt | pages/Auth.tsx:19 | no text accepted as the domain part contains '@' |
| AuthPage.MatchesEmailPattern | pages/Auth.tsx:19 | defines the language of the pattern: some '@' splits the text into a local part and a domain part |
| AuthPage.ValidateEmail | pages/Auth.tsx:18-20 | the validator as the page runs it: lower-case, split at the last '@'; ValidateEmailMatchesPattern states that it decides the pattern |
| AuthPage.ValidateEmailMatchesPattern | pages/Auth.tsx:18-20 | the validator accepts an address exactly when its lower-cased form is a local part, an '@' and a domain part, whichever '@' the split uses |
| AuthPage.PatternSplitIsLast | pages/Auth.tsx:19 | an '@' followed by a well-formed domain is the last '@' of the text |
| AuthPage.ValidateAt | pages/Auth.tsx:18-20 | once the last '@' is known, the verdict is that of the local part before it and the domain after it |
| AuthPage.Decided | pages/Auth.tsx:18-20 | an address reading `local@domain` in lower case, with no '@' in the domain, is valid exactly when both sides are well formed |
| AuthPage.HostNameOf | pages/Auth.tsx:19 | a host and a top-level domain form a domain exactly when the host is non-empty letters, digits and '-' and the top-level domain has at least two letters |
| AuthPage.SingleLabelRefused | pages/Auth.tsx:19 | a domain without a dot that is not an address literal is refused |
| AuthPage.AddressLiteralOf | pages/Auth.tsx:19 | a bracketed four-group literal is accepted exactly when each group has one to three digits |
| AuthPage.AcceptsMixedCase | pages/Auth.tsx:19 | A.B@Cd.CH is accepted, so case is ignored |
| AuthPage.RejectsMisplacedDots | pages/Auth.tsx:19 | .a@cd.ch and a..b@cd.ch are refused |
| AuthPage.RejectsShortTopLevelDomain | pages/Auth.tsx:19 | a@cd.c and a@cd are refused |
| AuthPage.AcceptsUncheckedAddressLiteral | pages/Auth.tsx:19 | a@[999.0.0.1] is accepted: the groups are not range-checked |
| AuthPage.InvalidMessage | pages/Auth.tsx:34 | the error line for a refused address is never empty |
| AuthPage.Handle | pages/Auth.tsx:31-136 | one event on the form: only a submission or the Google handler starts a login, and then the form is loading; the role changes only by the picker, the address and the password only by their fields, the mode never; a submission the browser blocks changes nothing |
| AuthPage.BrowserSubmits | pages/Auth.tsx:113-136 | defines when the browser passes a submission to the page: the button is not disabled by a pending login, both required fields are filled, and the email-typed field is accepted |
| AuthPage.BlockedSubmissionsChangeNothing | pages/Auth.tsx:113-136 | with an empty password, a pending login or an address the browser refuses, submitting leaves the form as it was and starts no login |
| AuthPage.SubmitGate | pages/Auth.tsx:31-136 | a submission starts a login, with the address as typed and the chosen role, exactly when the browser lets the form through (no pending login, both fields filled, the address accepted by the browser's own e-mail check) and the page's validator accepts the address; a submission the page refuses only sets the error line, and one the browser blocks changes nothing |
| AuthPage.EditingClearsError | pages/Auth.tsx:117-129 | editing the address or the password stores the value and clears the error line |
| AuthPage.RunForm | pages/Auth.tsx:93-136 | over any series of events the address changes only if the address field is edited, and the password only if the password field is |
| AuthPage.RoleIsSelectable | pages/Auth.tsx:98-102 | the form only ever holds or requests the USER or the ADMIN role, never SUPER_ADMIN |
| AuthPage.CompleteLogin | pages/Auth.tsx:22-29 | after the delay the user is signed in with the requested identity and role, the rest of the session is kept, and the page goes to /admin exactly for ADMIN and to /profile otherwise |
| AuthPage.FormLoginRoutesByRights | pages/Auth.tsx:22-102 | for a login the form starts, landing on /admin and holding administrator rights go together |
| AuthPage.GoogleLoginIsFixed | pages/Auth.tsx:40-45 | the Google login handler, which no control on the page calls, always asks for google_user@gmail.com with the USER role, whatever the form holds |
| AuthPage.UserLoginLandsOnProfile | pages/Auth.tsx:22-29 | a USER login lands on /profile with the given address and without administrator rights |
| AuthPage.GoogleName | pages/Auth.tsx:43 | the Google account is named google_user |
| AdminConsolePage.Guard | pages/AdminConsole.tsx:16 | the console redirects to /auth exactly when no administrator is signed in |
| AdminConsolePage.Record | pages/AdminConsole.tsx:18-31 | the new entry goes in front of the unchanged older ones, with the acting administrator, the action, the product and a LOG- id |
| AdminConsolePage.EditWhere | pages/AdminConsole.tsx:37 | the products with the id are edited in place, every other product is kept, and the length is unchanged |
| AdminConsolePage.SetField | pages/AdminConsole.tsx:33-44 | every product with the id gets the new price (or the new stock) and nothing else changes in it, every other product is kept, in place, and every position keeps its id |
| AdminConsolePage.UpdatePrice | pages/AdminConsole.tsx:33-38 | an unknown id changes nothing; otherwise the inventory keeps its length and one UPDATE_PRICE entry goes in front of the unchanged log |
| AdminConsolePage.UpdateStock | pages/AdminConsole.tsx:40-45 | an unknown id changes nothing; otherwise the inventory keeps its length and one UPDATE_STOCK entry goes in front of the unchanged log |
| AdminConsolePage.Delete | pages/AdminConsole.tsx:47-54 | an unknown id or a declined dialog changes nothing; the inventory never grows; a confirmed delete puts one REMOVE_PRODUCT entry in front of the unchanged log |
| AdminConsolePage.Apply | pages/AdminConsole.tsx:33-54 | only a delete can shorten the inventory, and every edit adds at most one log entry |
| AdminConsolePage.ApplyLogsOncePerSuccess | pages/AdminConsole.tsx:33-54 | an edit of an existing product (a confirmed one, for a delete) adds exactly one entry in front, naming the administrator and the product; any other edit changes nothing |
| AdminConsolePage.PriceUpdateEffect | pages/AdminConsole.tsx:33-38 | a price update changes only the edited product's price and logs UPDATE_PRICE with the old and the new price |
| AdminConsolePage.StockUpdateEffect | pages/AdminConsole.tsx:40-45 | a stock update changes only the edited product's stock and logs UPDATE_STOCK with the old and the new count |
| AdminConsolePage.DeleteEffect | pages/AdminConsole.tsx:47-54 | a confirmed delete removes exactly the products with the id, keeps the others in order, and logs REMOVE_PRODUCT from ACTIVE to DELETED |
| AdminConsolePage.ExtendsByTransitive | pages/AdminConsole.tsx:30 | a log extended in front twice by one administrator is extended in front by that administrator |
| AdminConsolePage.RunLogIsNewestFirst | pages/AdminConsole.tsx:18-54 | over any series of edits the log only grows at the front, by at most one entry per edit, and every new entry names the acting administrator |
| AdminConsolePage.ApplyKeepsIdsDistinct | pages/AdminConsole.tsx:33-54 | every edit keeps product ids unique |
| AdminProductsPage.FilterInventory | pages/AdminProducts.tsx:30-35 | a product is listed exactly when its localized name or its id contains the query, ignoring case, and the category is All or its own; catalog order is kept |
| AdminProductsPage.EmptyQueryListsCategory | pages/AdminProducts.tsx:30-35 | the empty query with All lists every product, in order |
| AdminProductsPage.BeforeIsStrictOrder | pages/AdminProducts.tsx:38-46 | the comparator's "goes before" is irreflexive, asymmetric and negatively transitive, for every column and direction |
| AdminProductsPage.Insert | pages/AdminProducts.tsx:38-46 | inserting adds exactly the one product to the list's contents |
| AdminProductsPage.OrderedCons | pages/AdminProducts.tsx:38-46 | a head that no later product goes before keeps an ordered tail ordered |
| AdminProductsPage.OrderedTail | pages/AdminProducts.tsx:38-46 | the tail of an ordered list is ordered |
| AdminProductsPage.HeadStaysFirst | pages/AdminProducts.tsx:38-46 | when the inserted product goes after the head, nothing in the rest goes before the head |
| AdminProductsPage.InsertKeepsOrdered | pages/AdminProducts.tsx:38-46 | inserting into an ordered list keeps it ordered |
| AdminProductsPage.SortProducts | pages/AdminProducts.tsx:38 | sorting rearranges the list: same products, same multiplicities |
| AdminProductsPage.SortProductsIsOrdered | pages/AdminProducts.tsx:38-46 | after sorting no product comes after one the comparator puts behind it |
| AdminProductsPage.ProcessedProducts | pages/AdminProducts.tsx:29-49 | the table shows exactly the listed products, as a permutation of the filtered list, ordered by the chosen column and direction |
| AdminProductsPage.ValuationOrder | pages/AdminProducts.tsx:39-44 | by valuation, prices are non-decreasing ascending and non-increasing descending |
| AdminProductsPage.ToggleSort | pages/AdminProducts.tsx:51-53 | clicking a header selects its column; the current column flips direction and another column starts ascending |
| AdminProductsPage.ToggleSortTwice | pages/AdminProducts.tsx:18-53 | clicking the current column twice restores the order; from the initial id-ascending order, clicking id turns it descending and clicking valuation sorts ascending |
| AdminProductsPage.Repaired | pages/AdminProducts.tsx:66-69 | the repaired report is OPTIMAL with no drift points and keeps the other fields of the previous report, or has none when there was no report |
| AdminProductsPage.RepairIsFinal | pages/AdminProducts.tsx:63-150 | a repair of a DRIFT report ends with an OPTIMAL report and the button disabled, and repairing a repaired report changes nothing |
| ResalePage.OrElse | pages/ResaleProtocol.tsx:27-31 | a present non-empty value is kept; a missing or empty one gives the fallback |
| ResalePage.PriceText | pages/ResaleProtocol.tsx:32 | the price's decimal text when present, 1200 otherwise; never empty |
| ResalePage.FormFromScan | pages/ResaleProtocol.tsx:26-34 | an answer overwrites every field, each with its own fallback (ATELIER_SAMPLE, VIRGIN_WOOL, OBSIDIAN, EU_50, MEN, 1200), and the condition is always NEW_UNWORN |
| ResalePage.ScannedFormIsComplete | pages/ResaleProtocol.tsx:26-34 | every field of a scanned form is filled |
| ResalePage.EmptyAnswerGivesSample | pages/ResaleProtocol.tsx:26-34 | an answer with no fields gives the sample listing MEN / ATELIER_SAMPLE / NEW_UNWORN / VIRGIN_WOOL / OBSIDIAN / EU_50 / 1200 |
| ResalePage.StartScan | pages/ResaleProtocol.tsx:20-50 | choosing a photo shows it and starts a scan with the marks cleared, keeping the form |
| ResalePage.FinishScan | pages/ResaleProtocol.tsx:23-41 | the analysing flag always drops; an answer overwrites the form and replaces the marks when it has any; a null answer or an error keeps the form and the marks |
| ResalePage.ScanEffect | pages/ResaleProtocol.tsx:20-41 | a whole scan shows the photo and ends idle; a null answer or an error keeps the form and leaves the marks empty |
| ResalePage.CanSubmit | pages/ResaleProtocol.tsx:164 | defines when the listing button is enabled: a photo is chosen, no scan is running and nothing was submitted yet; ResalePage.Handle states that only then does a press submit |
| ResalePage.Handle | pages/ResaleProtocol.tsx:69-164 | a listing is submitted exactly when Submit is pressed with a photo, outside a scan and before any submission; a submitted page stays submitted; an edit changes only its own form field (brand, category or price) and leaves condition, material, colour, size, the rest of the page and the session alone |
| ResalePage.CategoryText | pages/ResaleProtocol.tsx:128-137 | the category select yields only MEN, WOMEN or ACCESSORIES |
| ResalePage.EditsKeepScannedFields | pages/ResaleProtocol.tsx:116-158 | any series of edits keeps the condition, material, colour and size the scan set, the photo and the submitted flag, submits nothing and leaves the session alone |
| ResalePage.AtMostOneSubmission | pages/ResaleProtocol.tsx:69-164 | over any series of events at most one listing is submitted, and none once the page was submitted |
| ResalePage.SubmittingLeavesSessionAlone | pages/ResaleProtocol.tsx:69 | submitting leaves the session unchanged, since the store's incrementListingCount does nothing |
| ResalePage.Redirect | pages/ResaleProtocol.tsx:18 | the page redirects to /auth exactly when nobody is signed in |
| NavbarComponent.HexValue | components/Navbar.tsx:26 | the value of a hexadecimal digit lies in 0..15 |
| NavbarComponent.HexDigit | components/Navbar.tsx:26 | the upper-case digit written for a value in 0..15 is a hexadecimal digit whose value is that number |
| NavbarComponent.Utf8 | components/Navbar.tsx:26 | a code point encodes to one to four bytes; ASCII is its own single byte and every byte of a non-ASCII code point is at least 0x80 |
| NavbarComponent.PercentBytes | components/Navbar.tsx:26 | percent-escaping writes three URL-safe characters per byte |
| NavbarComponent.EncodeChar | components/Navbar.tsx:26 | one character encodes to URL-safe characters only |
| NavbarComponent.EncodeURIComponent | components/Navbar.tsx:26 | the encoded query holds only unreserved characters and `%`, is never shorter than the text, and leaves text of unreserved characters unchanged |
| NavbarComponent.DecodeEncodedChar | components/Navbar.tsx:26 | form decoding undoes the encoding of one ASCII character whatever follows it |
| NavbarComponent.DecodeEncodeAscii | components/Navbar.tsx:26 | form decoding recovers any ASCII text from its encodeURIComponent form |
| NavbarComponent.SplitPair | pages/ProductList.tsx:15 | a query pair splits at its first `=`: the name holds no `=`, and a pair without `=` has an empty value |
| NavbarComponent.SplitPairOfQ | components/Navbar.tsx:26 | the pair `q=<encoded>` splits into the name `q` and the whole encoded value |
| NavbarComponent.Scroll | components/Navbar.tsx:18 | the bar is compact exactly when the page is scrolled more than 30 pixels, and nothing else about the bar changes |
| NavbarComponent.SubmitSearch | components/Navbar.tsx:23-30 | a submission navigates exactly when the query is not all white space, with the untrimmed text encoded into the catalog URL, and then closes the overlay and clears the field; a blank query changes nothing |
| NavbarComponent.SearchUrl | components/Navbar.tsx:26 | the search URL is /products?q= followed by at least as many characters as the query, all of them URL-safe, so no & or # can split it |
| NavbarComponent.SearchRoundTrip | components/Navbar.tsx:26 | the catalog page's `q` parameter read from the search URL is exactly the ASCII text that was searched for |
| NavbarComponent.KeywordQuery | components/Navbar.tsx:40 | missing keywords search for the empty text; present ones are joined with single spaces |
| NavbarComponent.KeywordsRoundTrip | components/Navbar.tsx:40 | splitting the joined query on spaces gives back the keyword list when no keyword holds a space |
| NavbarComponent.StartVisualSearch | components/Navbar.tsx:34-35 | choosing a photo disables the upload button and changes nothing else |
| NavbarComponent.VisualSearchDoneAsWritten | components/Navbar.tsx:37-44 | as written: an answer navigates to its keyword query and closes the overlay, a null answer does not navigate, and the busy flag stays set exactly when the service rejected |
| NavbarComponent.RejectedVisualSearchStaysDisabled | components/Navbar.tsx:32-47 | after a rejected visual search the upload button (line 109) stays disabled, and neither a text search nor scrolling re-enables it |
| NavbarComponent.VisualSearchDone | components/Navbar.tsx:37-44 | corrected: the same navigation as written, and the busy flag is cleared whatever the service does |
| NavbarComponent.VisualSearchDoneAgrees | components/Navbar.tsx:37-44 | the corrected handler agrees with the one as written on every answer and differs after a rejection only in the busy flag |
| ChatBotWidget.IsRTL | components/ChatBot.tsx:48 | a text is set right to left exactly when some character lies in U+0600..U+06FF |
| ChatBotWidget.IsRTLAppend | components/ChatBot.tsx:48 | a concatenation is right to left exactly when one of its parts is |
| ChatBotWidget.AnswerText | components/ChatBot.tsx:40-42 | the answer is never empty: the response text when present and not empty, SYSTEM_LINK_FAILURE otherwise, NEURAL_LINK_DROPPED on an error |
| ChatBotWidget.BeginSend | components/ChatBot.tsx:24-28 | a send happens exactly when the input is not all white space: the untrimmed text goes to the model and to the message list, the field is cleared and the typing indicator comes on; a blank input changes nothing |
| ChatBotWidget.EndSend | components/ChatBot.tsx:40-45 | whatever the reply, exactly one answer is appended and the typing indicator goes off |
| ChatBotWidget.AppendPairAlternates | components/ChatBot.tsx:27-42 | a question followed by a non-empty answer keeps the messages alternating between visitor and concierge |
| ChatBotWidget.ExchangeAppendsPair | components/ChatBot.tsx:23-46 | one exchange appends the visitor's message and then its answer, or for a blank input changes no message; the messages keep alternating |
| ChatBotWidget.ConversationAlternates | components/ChatBot.tsx:23-46 | over any series of exchanges, each answered before the next send, the messages keep alternating, grow by at most two per exchange, and the typing indicator ends off |
| LayoutGuard.StartHealing | components/Layout.tsx:32-33 | a healing cycle starts by scanning with the body class on, integrity and fixes untouched |
| LayoutGuard.AuditDone | components/Layout.tsx:34-55 | the frame repairs exactly when the audit reports a drift or a score under 100, showing that score and appending a non-empty payload after a newline; otherwise it is stable with the class removed, at 100 after an audit and at the old integrity after an exception |
| LayoutGuard.RepairDone | components/Layout.tsx:42-46 | the end of a repair is stable at full integrity with the class removed and the fixes kept |
| LayoutGuard.Heal | components/Layout.tsx:31-56 | a healing cycle always ends stable with the body class removed, and keeps the earlier fixes as a prefix |
| LayoutGuard.HealEndsStable | components/Layout.tsx:31-56 | every cycle ends stable with the class removed, at 100 unless the audit threw, and with the old fixes as a prefix of the new |
| LayoutGuard.FixesOnlyGrow | components/Layout.tsx:58-62 | over any series of audits the injected style fixes are append-only and the frame ends stable |
| LayoutGuard.BarsFillFromTheBottom | components/Layout.tsx:85-87 | the lit gauge bars are always the lowest ones; full integrity lights all three and a score under 33 lights none |
| LayoutGuard.AuditFailureReadsAsHealthy | components/Layout.tsx:35-50 | when every audit attempt fails the service's fallback reaches the frame, which ends stable at 100 with no fixes added |
| GeminiService.Pow2 | services/gemini.ts:11 | the doubling factor of the backoff is at least one |
| GeminiService.RetryFrom | services/gemini.ts:5-15 | a retried call makes at most retries + 1 attempts, stops at the first success, ends with the outcome of its last attempt, after failures only, and waits delay·2^j before retry j |
| GeminiService.ExecuteWithRetry | services/gemini.ts:5-15 | the call makes between one and retries + 1 attempts, returns what the last one gave, and waits once between each two attempts |
| GeminiService.RetrySucceedsIffSomeAttemptDoes | services/gemini.ts:5-15 | the call succeeds exactly when one of its attempts does, and then with the first success; otherwise it rethrows the last attempt's error |
| GeminiService.DefaultRetryWaits | services/gemini.ts:5 | with the defaults a failing call is attempted four times, waiting 2000, 4000 and 8000 ms between attempts |
| GeminiService.PerformGlobalDesignAudit | services/gemini.ts:17-37 | the audit never fails: when all four attempts fail it gives the OPTIMAL / 100 fallback, otherwise the answer of the first attempt that succeeds |
| GeminiService.SplitHead | services/gemini.ts:41 | the first piece of a split is a prefix of the text that ends at the first separator or at the end |
| GeminiService.Base64Payload | services/gemini.ts:41 | an image without a comma is its own payload; otherwise the payload is the comma-free piece between the first comma and the next comma or the end |
| GeminiService.FirstComma | services/gemini.ts:41 | the index found holds a comma and no comma comes before it |
| GeminiService.PayloadOfDataUrl | services/gemini.ts:41 | the payload of `header,data` is `data` when neither holds a comma |
| GeminiService.BraceSpan | services/gemini.ts:99 | a match exists exactly when some `{` comes before some `}`, and then starts with `{` and ends with `}` |
| GeminiService.FirstOf | services/gemini.ts:99 | the first occurrence of a character: it is there and not before |
| GeminiService.LastOf | services/gemini.ts:99 | the last occurrence of a character: it is there and not after |
| GeminiService.MergePart | services/gemini.ts:95-101 | a part never removes a key: inline data sets the image URL, a parsed text adds its keys with their parsed values, and a skipped part changes nothing |
| GeminiService.MergeCouture | services/gemini.ts:93-104 | the merged design always has a reasoning chain |
| GeminiService.LastInlineDataWins | services/gemini.ts:94-96 | the image URL comes from the last inline-data part when no later text sets that key, and there is none when no part sets it |
| GeminiService.FilterSnoc | services/gemini.ts:94 | filtering a list with one more element keeps that element exactly when it passes |
| GeminiService.FoldSnoc | services/gemini.ts:94 | folding one more element applies the step once more |
| GeminiService.FoldSkipsNeutral | services/gemini.ts:94-103 | elements on which the step does nothing can be filtered out before a fold |
| GeminiService.MergeIsFold | services/gemini.ts:93-104 | the merge loop is the left fold of its step over the parts |
| GeminiService.SkippedPartsDoNotMatter | services/gemini.ts:97-101 | parts without inline data and without parsable text can be dropped from the answer without changing the merged design |
| LiveConciergeWidget.OnLink | components/LiveConcierge.tsx:18 | pressing the button starts connecting; opening the session makes it active and ends connecting (line 25); closing it makes it inactive (lines 55 and 94) |
| LiveConciergeWidget.HandleCall | components/LiveConcierge.tsx:29-34 | exactly the addItemToCart calls are answered, with OK and the call's id and name; the cart gains the named product in the requested colour and size when the catalog has it and is otherwise unchanged |
| LiveConciergeWidget.HandleCalls | components/LiveConcierge.tsx:28-35 | a message gets at most one response per call, and every response answers addItemToCart with OK |
| LiveConciergeWidget.HandleCallsResponds | components/LiveConcierge.tsx:28-35 | the responses to a message's calls do not depend on the cart or on which products exist |
| LiveConciergeWidget.ResponsesStep | components/LiveConcierge.tsx:28-35 | the first call of a message contributes a response exactly when it is an addItemToCart call |
| LiveConciergeWidget.AnswersCons | components/LiveConcierge.tsx:33 | answering one more call, in front, keeps the responses answering the calls one by one |
| LiveConciergeWidget.ResponsesAreFiltered | components/LiveConcierge.tsx:28-35 | the responses are the OK answers of the addItemToCart calls, one per call, in order |
| LiveConciergeWidget.ResponsesMatchCalls | components/LiveConcierge.tsx:28-35 | however the cart and catalog stand, every addItemToCart call and no other call is answered OK, in the order of the calls |
| LiveConciergeWidget.CartGainsKnownUnits | components/LiveConcierge.tsx:28-35 | the cart gains exactly one unit per call for a product that exists and loses no line |
| LiveConciergeWidget.UnknownCallsLeaveCart | components/LiveConcierge.tsx:31-32 | calls for unknown products or for other functions leave the cart as it was |
| LiveConciergeWidget.UnknownIdChangesNothing | components/LiveConcierge.tsx:31-33 | against the shipped catalog, a call for an id no product has is answered OK and changes nothing |
| LiveConciergeWidget.Int16LE | components/LiveConcierge.tsx:42 | two bytes read as a 16-bit sample agree with their little-endian value modulo 2^16 |
| LiveConciergeWidget.Int16Samples | components/LiveConcierge.tsx:40-42 | an odd number of bytes is refused; otherwise there is one sample per pair of bytes, read little-endian |
| LiveConciergeWidget.Scale | components/LiveConcierge.tsx:45 | a channel sample is the 16-bit value over 32768 and lies in [-1, 1) |
| LiveConciergeWidget.Enqueue | components/LiveConcierge.tsx:49-51 | a clip starts at the later of the clock and the queue's free time and lasts its duration |
| LiveConciergeWidget.Schedule | components/LiveConcierge.tsx:49-51 | a series of chunks gives one clip per chunk |
| LiveConciergeWidget.ClipsNeverOverlap | components/LiveConcierge.tsx:49-51 | no clip starts before its chunk arrived or before the queue was free, each lasts its chunk's length, and every clip ends before any later one starts |
| QuantumDesignPage.Entry | pages/QuantumDesign.tsx:21 | a log line is the timestamp in brackets, a space, then the message |
| QuantumDesignPage.Push | pages/QuantumDesign.tsx:19-22 | the new entry comes first, followed by at most 15 earlier entries, so the log holds at most 16 |
| QuantumDesignPage.Reverse | pages/QuantumDesign.tsx:21 | reversing keeps the length |
| QuantumDesignPage.TakeTake | pages/QuantumDesign.tsx:21 | cutting the older entries short first changes nothing when enough of them are kept |
| QuantumDesignPage.PushIsTake | pages/QuantumDesign.tsx:21 | a push is the first 16 of the entry followed by the log |
| QuantumDesignPage.LogKeepsNewest | pages/QuantumDesign.tsx:19-22 | after any series of pushes the log holds exactly the 16 most recent entries, newest first |
| QuantumDesignPage.Vibe | pages/QuantumDesign.tsx:33 | a non-empty override is used, otherwise the typed inspiration |
| QuantumDesignPage.FatalText | pages/QuantumDesign.tsx:63 | the fatal line is FATAL_ERROR: followed by the error's message, or by NEURAL_LINK_DROPPED when the message is empty |
| QuantumDesignPage.Generate | pages/QuantumDesign.tsx:32-70 | without a key and no way to pick one only the key error is logged; otherwise the model is asked with the vibe and depth, the concept is replaced only by a successful result, research is asked exactly after a success in autonomous or deep mode, the innovation changes only to a truthy research result, the picker is reopened only after a generation was attempted, the log stays within 16 entries and the flag ends off |
| QuantumDesignPage.ServiceConceptAlwaysShown | pages/QuantumDesign.tsx:48-53 | the couture service always answers with an object, so a successful call always shows a concept with a reasoning chain and ends with the flag off |
| QuantumDesignPage.PressGenerate | pages/QuantumDesign.tsx:127-134 | the button is absent in autonomous mode and does nothing while generating or with no inspiration typed; otherwise it generates with the inspiration |
| QuantumDesignPage.ToggleAutonomous | pages/QuantumDesign.tsx:72-81 | toggling flips the mode; switching off only logs the disconnection; switching on generates with INITIAL_EVOLUTION and asks for research exactly after a successful concept in deep mode, because the run sees the mode as it was |
| QuantumDesignPage.AutonomousTick | pages/QuantumDesign.tsx:83-88 | the timer fires only on an idle autonomous page, then generates with SELF_ITERATION and asks for research after every successful concept |

## Left out

- Browser storage: loading and saving the session to localStorage, and the JSON parsing that goes with it (store/context.tsx lines 40-57). This is I/O; every state starts from its value in memory.
- Routing: react-router matching, `navigate` and redirects. Navigations are results (a URL or a redirect target), and the route table of App.tsx is not modelled.
- The generative-AI SDK. Request building, model names, prompts and the network are left out. Each call's outcome is an input, including its failure.
- The other service functions: generateVeoVideo, searchGroundingQuery, getStylingAdvice, getGiftRecommendation, findBoutiquesNearby, editImageWithGemini and runStrategicInnovation. Only their results enter the model, as inputs. The same holds for the pages built only on them: AtelierVision, GiftProtocol and Boutiques.
- The request side of analyzeGarmentForResale and visualSearchInArchive. Their shared payload extraction is modelled as GeminiService.Base64Payload.
- JSON.parse of model answers. It is a function parameter (`parse`) that may fail.
- Timers and intervals. These are the checkout and login delays, the guard's three-second repair, the home ticker and the autonomous design timer. Each fires as one later transition, and clearing a timer is not modelled.
- Concurrency. React state batching and overlapping sends or scans are not modelled; each handler runs to completion alone. Of the stale closures, only the one in toggleAutonomous is modelled (QuantumDesignPage.ToggleAutonomous); the others read current state.
- Clock formatting. toLocaleTimeString, toLocaleString and the Layout's Zurich clock become opaque timestamp strings.
- Random ids and draws. Math.random ids and the home page's drift are inputs.
- Audio decoding: atob, the AudioContext, buffer creation and playback. Only the byte-to-sample reading, the s/32768 scaling and the start-time rule are modelled, with `real` standing for floating point.
- HomePage.Stability: the reading is a JavaScript double, but the model computes it, and HomePage.Stabilize and HomePage.StabilityStaysClamped reason about it, in exact `real` arithmetic. Rounding of the sum and of the 0.05 product is not modelled.
- ChatBotWidget.ConversationAlternates: assumes each exchange is answered before the next send. Neither the Enter key (components/ChatBot.tsx line 111) nor the send button (line 116) is disabled while an answer is awaited, so overlapping sends, which could put two user messages in a row, are not covered.
- Store.Login: always takes the role as an argument. The default of USER (store/context.tsx line 72) is not modelled, because the only call site (pages/Auth.tsx line 25) passes a role.
- Translations.Entry: a key that is not in the table reads as absent. In JavaScript a key such as "constructor" finds a property the table object inherits, a function, so a category parameter `constructor` would show that instead. Inherited properties are not modelled.
- AuthPage.BrowserSubmits: the browser's own e-mail syntax check and its clean-up of an e-mail field's value (line breaks removed, surrounding white space trimmed) are not modelled. The check's verdict is an input of the Submit event, and the value is taken as the browser hands it over.
- Floating-point prices. Prices are whole numbers (`int`), as every catalog price is.
- Prelude.Lower: lowers ASCII letters only, because full Unicode case mapping is not modelled.
- ProfilePage.UsagePercent: `used / limit * 100` is a JavaScript double, but the model and ProfilePage.UsagePercentIsMonotone use exact `real` arithmetic. Rounding of the division and the product is not modelled.
- LayoutGuard.AuditDone: the audit's integrity score is a whole number (`int`) in GeminiService.AuditResult, while the answer's JSON may carry any number, including a fraction. A fractional score compares against 100 the same way, but it is not representable here.
- Prelude.LexLess: compares strings by code point. JavaScript's `<` compares UTF-16 code units, and the two orders differ between a character outside the Basic Multilingual Plane and one in U+E000 to U+FFFF. Both are strict total orders, so the lemmas about it would hold of either; only the place of such names in AdminProductsPage.SortProducts's order differs from the browser's.
- NavbarComponent.FormDecode: turns each decoded byte into one character. This is exact for ASCII only, so the search round trip is stated for ASCII text.
- QuantumDesignPage.ValueText: approximates how a JSON value prints in a template string (strings as themselves, string lists joined with commas). Other values are kept as their JSON text.
- AdminProductsPage.SortProducts: states that the result is a permutation of its input, ordered by the comparator. It does not state the stability of Array.prototype.sort, although the insertion sort that models it is stable.
- QuantumDesignPage.Generate: models the picker call inside handleOpenKeySelection as a flag in the requests. The awaited dialog itself is not modelled.
- The `stock || 0` fallback of handleStockUpdate (pages/AdminConsole.tsx line 43). It differs from `stock` only for a missing or non-numeric stock, and stock is a whole number in this model.
- Stylist advice on the product page, the Profile page's report prompt, and the Editorial page's alert text. These are AI text or decoration.
- Styling, markup, animations, ProductCard and PrecisionLoader. These are decoration.

## Findings

| source | as written | input that shows it | evidently intended | confidence | as-written member | corrected member |
|---|---|---|---|---|---|---|
| store/context.tsx:90 | `t` indexes `translations[language]`, but only `de` and `fa` tables exist | language `fr` (or `it`) and any key: `translations.fr` is undefined and the lookup throws a TypeError (Store.TranslateFrenchThrows) | fall through to the German entry, then to the key itself, as the rest of the expression does | not executed | Store.TranslateAsWritten | Store.Translate |
| pages/ProductDetail.tsx:25-37 | on a change of product only the image and its index are reset; the route (App.tsx line 39) has no key, so the page is not remounted and the chosen colour and size survive | select Charcoal / EU 48 on m1, then follow a related link to m2: add-to-cart sends a colour and size m2 does not offer (ProductDetailPage.StaleSelectionAfterNavigation) | reset the colour and size to the new product's first options, as a fresh mount does | not executed | ProductDetailPage.ProductChangedAsWritten | ProductDetailPage.ProductChanged |
| components/Navbar.tsx:32-47 | the busy flag is cleared after the awaited visual search, without try/finally | visualSearchInArchive rejects: the flag stays set and the upload button (line 109) stays disabled (NavbarComponent.RejectedVisualSearchStaysDisabled) | clear the flag in every outcome, as the chat and design handlers do with `finally` | not executed | NavbarComponent.VisualSearchDoneAsWritten | NavbarComponent.VisualSearchDone |
| pages/Profile.tsx:14-23 | the audit's promise has only a fulfilment handler, and getStylingAdvice (services/gemini.ts lines 193-200) neither retries nor catches | the audit call rejects (no key, network failure): the running flag stays set and the dashboard shows CALIBRATING (line 88) until the user object changes and a later audit answers (ProfilePage.RejectedAuditStaysCalibrating) | drop the running flag in every outcome, as the chat and design handlers do with `finally` | not executed | ProfilePage.AuditSettledAsWritten | ProfilePage.AuditSettled |
