# The catalog and content-gating core of the 52labs site, in Dafny

The site has a React client with a catalog of apps and a WordPress theme. The theme serves the same catalog as a library page, a blog archive, product pages, and a sign-in/registration page for gated content. Under the markup sits a small amount of logic, and this project models it:

- **Client catalog.** The sample tables of categories, platforms, features and twelve products. The slug and category look-ups. The product filter: ASCII case-insensitive search, AND category, AND any-of platforms, AND any-of features.
- **Client page state.** The catalog page keeps a search text, three selection lists and the open/closed flags of its sidebar sections. It also derives the filtered products, "any filter active" and the results label.
- **Theme CMS-catalog and blog filters.** `ThemePages` models the theme script's two filtered grids as classes over cards rendered as records. Each filter marks every card hidden or visible, counts the visible ones, and shows or hides the "no results" element. It also writes the state to the URL and restores it from the URL. The URL is a list of key/value pairs.
- **Theme widgets.** The screenshot lightbox as an index moving over a fixed number of images. The product-page tab strip. The filter-section headers.
- **Sign-in and registration.**
  - the email-domain allow-list and its normalisation;
  - the ordered registration checks, where the first failure decides the error code;
  - the unique-username loop and the name split;
  - the sign-in checks and the content-gating default;
  - the sign-in page's mode, its alert texts and the allowed domains it displays.
- **Server queries.** The `WP_Query` arguments built by the AJAX product handler, the library template and the blog archive. The `data-category` / `data-tags` attributes of the rendered cards, which the browser filter reads back. The extra body classes.
- **Product page.** Which content sections exist, whether they are shown as tabs, which tab and panel start active, how the feature icons cycle, and the defaults of the display fields.
- **Header menu walker.** The active-class rules and the output it appends to, with nested items wrapped in the level markup the walker inherits.

The WordPress runtime enters only as inputs. This covers the conditional tags of the request, nonce checks, `is_email`, `email_exists`, `username_exists`, `wp_signon`, `wp_create_user`, the sanitisers and escapers, and `get_field` answers.

## Layout

| file | module | models |
|---|---|---|
| text.dfy | `Text` | shared string helpers: ASCII lower-casing, substring, JS/PHP trim, `explode`/`implode`, PHP `empty` on strings, UTF-8 byte length, decimal numerals |
| catalog.dfy | `Catalog` | `frontend/src/data/products.js` |
| library_page.dfy | `LibraryPage` | `frontend/src/pages/Library.jsx` |
| card_filter.dfy | `CardFilter` | the card predicates and visible counts of `library.js` |
| url_params.dfy | `UrlParams` | the query-string encoders and `get`/`getAll` of `library.js` |
| theme_pages.dfy | `ThemePages` | the catalog and blog pages of `library.js` as classes |
| widgets.dfy | `Widgets` | the lightbox, tabs and accordion of `library.js` |
| authentication.dfy | `Authentication` | `inc/authentication.php` |
| login_page.dfy | `LoginPage` | `template-login.php` |
| wordpress.dfy | `WordPress` | request parameters, conditional tags, terms, `WP_Query` arguments, shared tax-clause builder |
| theme_functions.dfy | `ThemeFunctions` | `functions.php` |
| library_template.dfy | `LibraryTemplate` | `template-library.php` |
| archive_template.dfy | `ArchiveTemplate` | `archive.php` |
| product_page.dfy | `ProductPage` | `single-product.php` |
| header_nav.dfy | `HeaderNav` | `inc/header-nav.php` |

## Where the code differs from what one might expect

The model follows the code in each of these cases.

- **The two searches differ.**
  - The client search lower-cases the query but does not trim it. It looks in the name, the description and the category id.
  - The theme script lower-cases and trims the query. It looks in the card's title and description (the excerpt for posts).
  - `Catalog.SearchMatches` and `CardFilter.ProductCardVisible` keep the two rules apart.
- **Only the first category counts in the browser.**
  - The cards carry only their first category. The browser compares only that category.
  - The server's `product_cat` clause accepts a product with any selected term.
  - `ThemeFunctions.CategoryTestSeesFirstTermOnly` and `CardFilter.OnlyTheFirstCategoryCounts` state this.
- **Adding selections can add results.** Selections within a dimension are OR-ed. So adding a selection can add results, as `Catalog.PlatformsOrWithin` shows. It does not only narrow the result.
- **The first `search` wins.** For a repeated `search` key the first occurrence wins: `URLSearchParams.get` returns the first value, and `UrlParams.Get` models that.
- **The two domain lists differ.**
  - The allow-list lower-cases the configured domains, trims them and strips their leading `@`s.
  - The list the sign-in page displays lower-cases and trims, but keeps the `@`.
  - The page's emptiness test runs before the trim, so a blank row is displayed as an empty entry.
- **PHP's `empty` treats `"0"` as empty.** So a category slug `"0"` checks the "All Categories" radio together with its own radio. A search for `"0"` is not sent.

## Model

Paths are relative to the repository root.

| member | source | states |
|---|---|---|
| Text.Lower | wordpress/app/public/wp-content/themes/headless-cms/assets/js/library.js:193 | lower-casing keeps the length, maps each character on its own, and leaves no upper-case ASCII letter |
| Text.LowerOfLower | wordpress/app/public/wp-content/themes/headless-cms/assets/js/library.js:193 | lower-casing a lower-case string changes nothing |
| Text.ContainsIffOccurs | wordpress/app/public/wp-content/themes/headless-cms/assets/js/library.js:214-216 | `includes` holds iff the query occurs at some position of the text |
| Text.TrimMeaning | wordpress/app/public/wp-content/themes/headless-cms/assets/js/library.js:193 | trimming removes the blanks at both ends and nothing else: the result is the slice of the input between its leading and trailing blanks, and has no blank at either end |
| Text.TrimUntouched | wordpress/app/public/wp-content/themes/headless-cms/inc/authentication.php:233 | a string with no blank at either end is left as it is by trimming |
| Text.TrimAllSpace | wordpress/app/public/wp-content/themes/headless-cms/assets/js/library.js:193 | a string made only of blanks trims to "" |
| Text.LTrimChar | wordpress/app/public/wp-content/themes/headless-cms/inc/authentication.php:235 | `ltrim($s, '@')` removes the leading '@'s and only those: it keeps a suffix that does not start with '@', and every character before it is '@' |
| Text.Split | wordpress/app/public/wp-content/themes/headless-cms/inc/authentication.php:203 | `explode` gives one more part than there are separators, and no part holds the separator |
| Text.JoinSplit | wordpress/app/public/wp-content/themes/headless-cms/inc/authentication.php:164-165 | joining the parts of `explode` with the separator gives the string back |
| Text.SplitJoin | wordpress/app/public/wp-content/themes/headless-cms/functions.php:240 | splitting a join of separator-free parts gives the parts back, in order |
| Text.SplitTwoParts | wordpress/app/public/wp-content/themes/headless-cms/inc/authentication.php:203-206 | `explode('@', …)` has exactly two parts iff there is exactly one '@' |
| Text.Utf8Length | wordpress/app/public/wp-content/themes/headless-cms/inc/authentication.php:129 | `strlen` counts bytes: between one and four per character |
| Text.NatToStringInjective | wordpress/app/public/wp-content/themes/headless-cms/inc/authentication.php:147 | different counters print as different numerals |
| Catalog.FindBySlug | frontend/src/data/products.js:285-287 | `find` returns an item of the list that has the slug, or undefined iff no item has it |
| Catalog.GetProductBySlug | frontend/src/data/products.js:285-287 | undefined iff no product has the slug; otherwise a product of the table with that slug |
| Catalog.WithCategory | frontend/src/data/products.js:289-292 | a category look-up keeps exactly the items of that category, in order |
| Catalog.GetProductsByCategory | frontend/src/data/products.js:289-292 | every product for an absent or empty id; otherwise exactly the products of that category |
| Catalog.FilterMembership | frontend/src/data/products.js:294-325 | a product is in the result iff it is in the table and passes every active test |
| Catalog.FilterProducts | frontend/src/data/products.js:294-325 | a product is in the result iff it is in the table and passes the test |
| Catalog.FilterAllMatch | frontend/src/data/products.js:295-324 | every product of the result passes the test |
| Catalog.FilterIsSubsequence | frontend/src/data/products.js:295 | the result is a subsequence of the input: no reordering, no duplication |
| Catalog.InactiveQueryKeepsAll | frontend/src/data/products.js:296-324 | with a falsy search and no non-empty selection, every product is kept in order |
| Catalog.EmptyQueryKeepsAll | frontend/src/data/products.js:296-324 | the absent query and the query of empty values both return the whole table |
| Catalog.FilterIdempotent | frontend/src/data/products.js:294-325 | filtering the result again with the same query changes nothing |
| Catalog.FilterKeepsIdsDistinct | frontend/src/data/products.js:294-325 | without duplicate ids in the input, none appear in the result |
| Catalog.SearchOnly | frontend/src/data/products.js:297-303 | a truthy search keeps a product iff the lower-cased, untrimmed query is in its lower-cased name, description or category id |
| Catalog.SearchIgnoresCase | frontend/src/data/products.js:297-302 | a query and its lower-cased form select the same products |
| Catalog.CategoryOnly | frontend/src/data/products.js:307-309 | a non-empty category selection keeps a product iff its category is selected |
| Catalog.MatchesIsConjunction | frontend/src/data/products.js:296-324 | a product passes iff it passes each dimension on its own |
| Catalog.PlatformsOrWithin | frontend/src/data/products.js:312-315 | platforms are OR-ed: adding a platform to a non-empty selection never drops a product |
| Catalog.FeaturesOrWithin | frontend/src/data/products.js:318-321 | features are OR-ed: adding a feature to a non-empty selection never drops a product |
| Catalog.NoPlatformsNeverMatch | frontend/src/data/products.js:312-315 | a product without platforms fails every non-empty platform selection |
| Catalog.TableKeysUnique | frontend/src/data/products.js:26-283 | the ids and the slugs of the sample table are unique |
| Catalog.SlugFindsItsProduct | frontend/src/data/products.js:285-287 | each product of the table is found by its own slug |
| Catalog.UnknownSlug | frontend/src/data/products.js:285-287 | a slug that no product has gives undefined |
| Catalog.WithCategoryIsFilter | frontend/src/data/products.js:289-292 | the category look-up agrees with the filter for that one category |
| Catalog.ByCategoryProperties | frontend/src/data/products.js:289-292 | a falsy id returns the whole table; any other id returns the products of that category |
| Catalog.FilterAppend | frontend/src/data/products.js:295 | filtering distributes over concatenation |
| Catalog.ScenarioTicketing | frontend/src/data/products.js:26-283 | selecting `ticketing` gives Prekindle, Booking, Booktine and Charier, in that order |
| Catalog.ScenarioAndroid | frontend/src/data/products.js:26-283 | selecting `android` gives Prekindle, Booking, Flankist and Analytix, in that order |
| Catalog.ScenarioTicketingOnAndroid | frontend/src/data/products.js:26-283 | selecting both gives Prekindle and Booking |
| LibraryPage.RemoveAll | frontend/src/pages/Library.jsx:49 | `filter(v => v !== value)` keeps every other value in order and drops every occurrence of the value |
| LibraryPage.RemoveAllAbsent | frontend/src/pages/Library.jsx:49 | removing a value that is not there leaves the list as it was |
| LibraryPage.ToggledMeaning | frontend/src/pages/Library.jsx:48-52 | a selected value is removed, every occurrence of it, and the rest stay in order; an unselected value is appended at the end |
| LibraryPage.ToggleTwiceRestores | frontend/src/pages/Library.jsx:48-52 | toggling an unselected value twice restores the list |
| LibraryPage.PageQuery | frontend/src/pages/Library.jsx:17-24 | the page's query is active in some dimension iff the page has an active filter |
| LibraryPage.InactiveShowsAll | frontend/src/pages/Library.jsx:17-24 | with no active filter the page shows every product in table order |
| Text.CountNoun | frontend/src/pages/Library.jsx:210 | the unit is the singular for a count of exactly 1 and the plural otherwise |
| Text.CountLabelInjective | frontend/src/pages/Library.jsx:210 | with a singular shorter than the plural, two different counts never give the same count text |
| LibraryPage.ResultsLabelInjective | frontend/src/pages/Library.jsx:210 | two different counts never give the same label |
| LibraryPage.Page.constructor | frontend/src/pages/Library.jsx:7-15 | the page starts with an empty search, empty selections and all three sections open |
| LibraryPage.Page.HasActiveFilters | frontend/src/pages/Library.jsx:62-63 | true iff the search is non-empty or any selection list is non-empty |
| LibraryPage.Page.FilteredProducts | frontend/src/pages/Library.jsx:17-24 | the shown products are the table's products that pass the page's query, in table order, and all of them when no filter is active |
| LibraryPage.Page.SetSearchQuery | frontend/src/pages/Library.jsx:96 | the search box's handler sets the search and nothing else |
| LibraryPage.Page.ToggleFilter | frontend/src/pages/Library.jsx:33-53 | only the named list changes, to its toggled form; the other lists, the search and the section flags stay |
| LibraryPage.Page.ClearAllFilters | frontend/src/pages/Library.jsx:55-60 | the search and the three lists become empty, no filter is active and every product is shown; the section flags stay |
| LibraryPage.Page.ToggleSection | frontend/src/pages/Library.jsx:26-31 | the named section's flag flips, and every other flag and the filter state stay |
| LibraryPage.ToggleOnOff | frontend/src/pages/Library.jsx:48-52 | toggling a value on and off from the initial state leaves every list empty |
| CardFilter.SearchText | wordpress/app/public/wp-content/themes/headless-cms/assets/js/library.js:192-193 | the query is "" without a search input, and otherwise has no blank at either end |
| CardFilter.SearchTextMeaning | wordpress/app/public/wp-content/themes/headless-cms/assets/js/library.js:192-193 | the query is the lower-cased input with the blanks at its two ends removed, and nothing else removed; it is lower-case |
| CardFilter.BlankSearchIsEmpty | wordpress/app/public/wp-content/themes/headless-cms/assets/js/library.js:193 | a search input holding only white space gives the empty query, which hides nothing |
| CardFilter.CardTags | wordpress/app/public/wp-content/themes/headless-cms/assets/js/library.js:201 | the decoded tags are exactly the non-empty space-separated parts of `data-tags` |
| CardFilter.CardTagsInvertsJoin | wordpress/app/public/wp-content/themes/headless-cms/assets/js/library.js:201 | decoding the space-join of non-empty, space-free slugs gives the slugs back, in order |
| CardFilter.ProductCardVisibleIff | wordpress/app/public/wp-content/themes/headless-cms/assets/js/library.js:206-219 | with tags selected, a card is visible iff its category passes, some selected tag is one of its non-empty tags, and the query is empty or in its title or description |
| CardFilter.OnlyTheFirstCategoryCounts | wordpress/app/public/wp-content/themes/headless-cms/assets/js/library.js:200-207 | a card carrying `ticketing` stays hidden when only `marketing` is selected |
| CardFilter.PostCategoryOnly | wordpress/app/public/wp-content/themes/headless-cms/assets/js/library.js:112 | a chosen blog category keeps exactly the posts of that category |
| CardFilter.PostCardVisibleIff | wordpress/app/public/wp-content/themes/headless-cms/assets/js/library.js:106-120 | a post card is shown iff no category is chosen or its category is the chosen one, and the query is empty or occurs in its lower-cased title or excerpt |
| CardFilter.CountProducts | wordpress/app/public/wp-content/themes/headless-cms/assets/js/library.js:197-223 | the visible count never exceeds the number of cards |
| CardFilter.CountProductsZero | wordpress/app/public/wp-content/themes/headless-cms/assets/js/library.js:222-246 | the count is 0 iff no product card passes the filter |
| CardFilter.CountPosts | wordpress/app/public/wp-content/themes/headless-cms/assets/js/library.js:104-124 | the visible count never exceeds the number of cards |
| CardFilter.CountPostsZero | wordpress/app/public/wp-content/themes/headless-cms/assets/js/library.js:123-158 | the count is 0 iff no post card passes the filter |
| CardFilter.CountProductsSnoc | wordpress/app/public/wp-content/themes/headless-cms/assets/js/library.js:222 | each product card adds one to the running count iff it is visible |
| CardFilter.CountPostsSnoc | wordpress/app/public/wp-content/themes/headless-cms/assets/js/library.js:123 | each post card adds one to the running count iff it is visible |
| CardFilter.NextPlaceholder | wordpress/app/public/wp-content/themes/headless-cms/assets/js/library.js:232-246 | the "no results" element is displayed iff nothing is visible; it is created only when first needed and never removed |
| UrlParams.Get | wordpress/app/public/wp-content/themes/headless-cms/assets/js/library.js:499 | `get` returns a value stored under the key, or null iff no pair has the key |
| UrlParams.GetAllMembership | wordpress/app/public/wp-content/themes/headless-cms/assets/js/library.js:508 | a value is in `getAll(key)` iff some pair carries it under the key |
| UrlParams.GetIsFirstOfGetAll | wordpress/app/public/wp-content/themes/headless-cms/assets/js/library.js:499 | `get` returns the first element of `getAll`, so the first value under the key |
| UrlParams.GetAllAppend | wordpress/app/public/wp-content/themes/headless-cms/assets/js/library.js:560-561 | `getAll` of a concatenation is the concatenation of the two look-ups |
| UrlParams.KeyPairs | wordpress/app/public/wp-content/themes/headless-cms/assets/js/library.js:560 | one pair per value, in order, all under the key |
| UrlParams.GetAllKeyPairs | wordpress/app/public/wp-content/themes/headless-cms/assets/js/library.js:560-561 | `getAll` under the key returns the appended values; under another key it returns none |
| UrlParams.AppendAll | wordpress/app/public/wp-content/themes/headless-cms/assets/js/library.js:560-561 | appending each value in turn extends the list by one pair per value, in order |
| UrlParams.Serialize | wordpress/app/public/wp-content/themes/headless-cms/assets/js/library.js:564 | a non-empty list serialises to a non-empty query string |
| UrlParams.RenderUrl | wordpress/app/public/wp-content/themes/headless-cms/assets/js/library.js:564-566 | the URL is the bare path iff there are no pairs, else the path followed by '?' and the query |
| UrlParams.ProductParamsDecode | wordpress/app/public/wp-content/themes/headless-cms/assets/js/library.js:547-569 | decoding the catalog URL gives back the checked categories and tags in order; it gives the trimmed search iff that search is non-empty |
| UrlParams.ProductParamsOrder | wordpress/app/public/wp-content/themes/headless-cms/assets/js/library.js:560-562 | every `categories` pair comes before the others, `search` can only be last, and there is one pair per value plus one for a non-blank search |
| UrlParams.BlogParamsDecode | wordpress/app/public/wp-content/themes/headless-cms/assets/js/library.js:160-175 | decoding the blog URL gives back the category and the trimmed search, each only when non-empty |
| UrlParams.BareUrlIffNoState | wordpress/app/public/wp-content/themes/headless-cms/assets/js/library.js:564-566 | the catalog URL is the bare path iff nothing is checked and the search is blank |
| ThemePages.CheckedValuesMembership | wordpress/app/public/wp-content/themes/headless-cms/assets/js/library.js:182-184 | a value is among the checked values iff a checked box carries it |
| ThemePages.FirstWithValue | wordpress/app/public/wp-content/themes/headless-cms/assets/js/library.js:511 | for a value the selector reads as itself, the lookup finds the first box with that value, or none iff no box has it |
| ThemePages.CheckValue | wordpress/app/public/wp-content/themes/headless-cms/assets/js/library.js:511-512 | checking a value keeps the number of boxes |
| ThemePages.CheckAll | wordpress/app/public/wp-content/themes/headless-cms/assets/js/library.js:510-513 | checking the decoded values keeps the number of boxes |
| ThemePages.CheckAllEffect | wordpress/app/public/wp-content/themes/headless-cms/assets/js/library.js:508-523 | with distinct values and values the selector reads as themselves, a box ends up checked iff it was checked or its value was decoded; unknown values check nothing and no box changes value |
| ThemePages.SafePrefix | wordpress/app/public/wp-content/themes/headless-cms/assets/js/library.js:510-513 | counts the leading values that are safe in a selector: all before it are safe, the one at it is not |
| ThemePages.CheckAllAsWrittenMeaning | wordpress/app/public/wp-content/themes/headless-cms/assets/js/library.js:510-523 | the loop as written checks exactly the values before the first one that breaks its selector, and throws iff there is such a value; with only safe values it agrees with the exact lookup |
| ThemePages.QuoteStopsLaterValues | wordpress/app/public/wp-content/themes/headless-cms/assets/js/library.js:510-513 | a value holding a quote, decoded before a known value, keeps that known box unchecked, where the exact lookup checks it |
| ThemePages.CheckedRoundTrip | wordpress/app/public/wp-content/themes/headless-cms/assets/js/library.js:508-523 | restoring the encoded checked values onto the unchecked group gives back the group |
| ThemePages.HiddenProducts | wordpress/app/public/wp-content/themes/headless-cms/assets/js/library.js:220 | a product card is marked hidden iff it fails the filter |
| ThemePages.HiddenPosts | wordpress/app/public/wp-content/themes/headless-cms/assets/js/library.js:121 | a post card is marked hidden iff it fails the filter |
| ThemePages.MarkProductCards | wordpress/app/public/wp-content/themes/headless-cms/assets/js/library.js:196-223 | the loop hides exactly the failing cards and counts exactly the visible ones |
| ThemePages.MarkPostCards | wordpress/app/public/wp-content/themes/headless-cms/assets/js/library.js:103-124 | the loop hides exactly the failing posts and counts exactly the visible ones |
| ThemePages.CatalogPage.constructor | wordpress/app/public/wp-content/themes/headless-cms/template-library.php:144-184 | the cards start visible, one flag per card, and the "no products" element is in the grid and shown iff there is no card |
| ThemePages.CatalogPage.UpdateUrlState | wordpress/app/public/wp-content/themes/headless-cms/assets/js/library.js:547-569 | the URL becomes the encoding of the checked boxes and the trimmed search |
| ThemePages.CatalogPage.FilterProducts | wordpress/app/public/wp-content/themes/headless-cms/assets/js/library.js:177-230 | the cards end up marked as the inputs select them, the count is the number of visible cards, the placeholder follows the count, the URL shows the state, and the inputs stay |
| ThemePages.CatalogPage.InitUrlState | wordpress/app/public/wp-content/themes/headless-cms/assets/js/library.js:492-529 | a non-empty URL search fills the search input first; then the categories and then the tags are checked in turn until a value breaks its selector, which throws: the tags are then left as they were and no filter runs; with no throw the filter re-runs iff something was decoded; without a re-run the cards, placeholder and URL stay |
| ThemePages.CatalogPage.ApplyUrlValues | wordpress/app/public/wp-content/themes/headless-cms/assets/js/library.js:508-523 | the values are checked in the one group named, in turn, until one breaks its selector; it reports whether one did, and the other group is unchanged |
| ThemePages.FirstRadio | wordpress/app/public/wp-content/themes/headless-cms/assets/js/library.js:536 | for a value the selector reads as itself, the lookup finds the first radio with that value, or none iff no radio has it |
| ThemePages.BlogPage.constructor | wordpress/app/public/wp-content/themes/headless-cms/archive.php:170-236 | the posts start visible, and the "no posts" element is in the grid and shown iff there is no post |
| ThemePages.BlogPage.UpdateBlogUrlState | wordpress/app/public/wp-content/themes/headless-cms/assets/js/library.js:160-175 | the URL becomes the encoding of the chosen category and the trimmed search |
| ThemePages.BlogPage.FilterPosts | wordpress/app/public/wp-content/themes/headless-cms/assets/js/library.js:91-131 | the posts end up marked as the chosen category and the query select them; the count, placeholder and URL follow; the inputs stay |
| ThemePages.BlogPage.InitUrlState | wordpress/app/public/wp-content/themes/headless-cms/assets/js/library.js:492-545 | the search is restored first; a non-empty URL category throws iff it breaks its selector, leaving the radios and running no filter; otherwise it checks its radio when one exists and is else dropped; the filter re-runs iff nothing threw and a category or search was decoded |
| ThemePages.BlogCategoryRoundTrip | wordpress/app/public/wp-content/themes/headless-cms/assets/js/library.js:534-538 | a chosen non-empty category, written to the URL and read back, checks the same radio |
| Widgets.Lightbox.constructor | wordpress/app/public/wp-content/themes/headless-cms/single-product.php:121-134 | the lightbox starts closed on the first image, with the counter at 1 |
| Widgets.Lightbox.Update | wordpress/app/public/wp-content/themes/headless-cms/assets/js/library.js:343-359 | exactly the image at the index is active, the counter is the index plus one, prev is disabled iff at the first image and next iff at the last; a missing control is left alone |
| Widgets.Lightbox.Open | wordpress/app/public/wp-content/themes/headless-cms/assets/js/library.js:329-335 | opening on a thumbnail's index shows that image, opened and in sync |
| Widgets.Lightbox.Close | wordpress/app/public/wp-content/themes/headless-cms/assets/js/library.js:337-341 | closing changes only the open state |
| Widgets.Lightbox.Next | wordpress/app/public/wp-content/themes/headless-cms/assets/js/library.js:361-366 | next moves one image on and resyncs, and is a no-op at the last image; the index stays in range |
| Widgets.Lightbox.Prev | wordpress/app/public/wp-content/themes/headless-cms/assets/js/library.js:368-373 | prev moves one image back and resyncs, and is a no-op at the first image; the index stays in range |
| Widgets.Lightbox.KeyDown | wordpress/app/public/wp-content/themes/headless-cms/assets/js/library.js:400-410 | keys are ignored while closed and any other key is ignored while open, with every display field unchanged; Escape closes and leaves the display as it was; the arrows move as prev and next; the range and the sync are kept |
| Widgets.WalkToEnd | wordpress/app/public/wp-content/themes/headless-cms/assets/js/library.js:361-366 | pressing next repeatedly from the first image stops at the last, with the counter at the number of images and next disabled |
| Widgets.TabStrip.constructor | wordpress/app/public/wp-content/themes/headless-cms/assets/js/library.js:284-285 | the strip holds the buttons and panels as rendered |
| Widgets.TabStrip.Click | wordpress/app/public/wp-content/themes/headless-cms/assets/js/library.js:290-304 | the clicked button alone is active, and a panel is active iff its id is "tab-" followed by the button's tab |
| Widgets.OnePanelActive | wordpress/app/public/wp-content/themes/headless-cms/assets/js/library.js:298-303 | with distinct panel ids at most one panel carries the clicked id, and one does whenever some panel has it |
| Widgets.AriaAfterClick | wordpress/app/public/wp-content/themes/headless-cms/assets/js/library.js:37-38 | a click writes "false" iff the header read "true", and "true" otherwise, including when the attribute is missing |
| Widgets.TwoClicksRestore | wordpress/app/public/wp-content/themes/headless-cms/assets/js/library.js:36-39 | after two clicks the header reads "true" iff it first read "true", and "false" otherwise, including when the attribute was missing |
| Widgets.FilterHeader.constructor | wordpress/app/public/wp-content/themes/headless-cms/assets/js/library.js:33 | the header holds its rendered `aria-expanded` |
| Widgets.FilterHeader.Click | wordpress/app/public/wp-content/themes/headless-cms/assets/js/library.js:36-39 | a click sets the attribute to its flipped value |
| Authentication.NormalizeRowIsNormal | wordpress/app/public/wp-content/themes/headless-cms/inc/authentication.php:231-237 | an entry built from a row is lower-case, not empty in PHP's sense, without leading '@' and without a trailing blank |
| Authentication.NormalizedEntries | wordpress/app/public/wp-content/themes/headless-cms/inc/authentication.php:229-241 | every allow-list entry is such an entry, and there are at most as many entries as rows |
| Authentication.NormalizedMembership | wordpress/app/public/wp-content/themes/headless-cms/inc/authentication.php:229-241 | a domain is on the list iff some row normalises to it |
| Authentication.NormalizeStripsAt | wordpress/app/public/wp-content/themes/headless-cms/inc/authentication.php:233-235 | "@Ab" is stored as "ab" |
| Authentication.NormalizeDrops | wordpress/app/public/wp-content/themes/headless-cms/inc/authentication.php:231-236 | an unset row, "0" and a lone "@" contribute nothing |
| Authentication.GetAllowedDomains | wordpress/app/public/wp-content/themes/headless-cms/inc/authentication.php:219-244 | the list is empty without ACF or a repeater, and otherwise the rows' normalised domains in row order |
| Authentication.DomainAllowedMeaning | wordpress/app/public/wp-content/themes/headless-cms/inc/authentication.php:193-212 | an empty list admits every address; otherwise `local@domain` with one '@' is admitted iff its lower-cased domain is listed exactly |
| Authentication.DomainAllowedNeedsOneAt | wordpress/app/public/wp-content/themes/headless-cms/inc/authentication.php:203-206 | a non-empty list refuses an address without exactly one '@' |
| Authentication.IsEmailDomainAllowed | wordpress/app/public/wp-content/themes/headless-cms/inc/authentication.php:192-212 | an empty list admits every address; a non-empty list admits only addresses with exactly one '@' |
| Authentication.CheckRegistration | wordpress/app/public/wp-content/themes/headless-cms/inc/authentication.php:93-138 | the code returned is a failing check with no earlier check failing; none is returned iff every check passes |
| Authentication.WeakPasswordExamples | wordpress/app/public/wp-content/themes/headless-cms/inc/authentication.php:129 | seven ASCII characters are weak, while four two-byte characters make eight bytes |
| Authentication.CandidatesDistinct | wordpress/app/public/wp-content/themes/headless-cms/inc/authentication.php:146-149 | the loop never tries the same username twice |
| Authentication.Tried | wordpress/app/public/wp-content/themes/headless-cms/inc/authentication.php:146-149 | the first n candidates are n different names |
| Authentication.UniqueUsername | wordpress/app/public/wp-content/themes/headless-cms/inc/authentication.php:141-149 | the result is free, and it is the first of base, base1, base2, … that is free |
| Authentication.LocalPart | wordpress/app/public/wp-content/themes/headless-cms/inc/authentication.php:141 | the base username is the '@'-free text before the first '@' |
| Authentication.FirstNameMeaning | wordpress/app/public/wp-content/themes/headless-cms/inc/authentication.php:164-165 | the first name is a space-free prefix of the name; a name without a space is all first name, with no last name |
| Authentication.NameParts | wordpress/app/public/wp-content/themes/headless-cms/inc/authentication.php:164-165 | for two or more space-free parts, the first name is the first part and the last name the last |
| Authentication.LastName | wordpress/app/public/wp-content/themes/headless-cms/inc/authentication.php:165 | the last name is a space-free suffix of the name, and empty when the name has no space |
| Authentication.LeadingSpaceEmptiesFirstName | wordpress/app/public/wp-content/themes/headless-cms/inc/authentication.php:164 | a name starting with a space has an empty first name (the handler trims the name first, so it never splits such a name) |
| Authentication.HandleRegistration | wordpress/app/public/wp-content/themes/headless-cms/inc/authentication.php:82-178 | see below |
| Authentication.HandleLogin | wordpress/app/public/wp-content/themes/headless-cms/inc/authentication.php:20-70 | see below |
| Authentication.LoginDoesNotRevealAccounts | wordpress/app/public/wp-content/themes/headless-cms/inc/authentication.php:48-65 | an unknown address and a wrong password give the same answer |
| Authentication.IsContentGatingEnabled | wordpress/app/public/wp-content/themes/headless-cms/inc/authentication.php:259-274 | gating is off iff ACF is present and the field is set to a falsy value |
| LoginPage.GenericIffUnknown | wordpress/app/public/wp-content/themes/headless-cms/template-login.php:43-75 | an error value gets the generic text iff it is not one of the nine known codes |
| LoginPage.HandlerCodesAreKnown | wordpress/app/public/wp-content/themes/headless-cms/template-login.php:43-75 | every code the sign-in and registration handlers redirect with has its own text |
| LoginPage.ReadQuery | wordpress/app/public/wp-content/themes/headless-cms/template-login.php:36-90 | see below |
| LoginPage.AfterRegistration | wordpress/app/public/wp-content/themes/headless-cms/template-login.php:79-81 | after a registration the page opens on sign-in with the success alert, whatever the mode says |
| LoginPage.ModeIsExact | wordpress/app/public/wp-content/themes/headless-cms/template-login.php:36 | "Register" with a capital R opens the sign-in form |
| LoginPage.DisplayList | wordpress/app/public/wp-content/themes/headless-cms/template-login.php:97-101 | at most one displayed entry per row |
| LoginPage.DisplayListAppend | wordpress/app/public/wp-content/themes/headless-cms/template-login.php:97-101 | the displayed list grows row by row |
| LoginPage.DisplayDomains | wordpress/app/public/wp-content/themes/headless-cms/template-login.php:93-103 | the page shows nothing without ACF or a repeater, and otherwise the rows' displayed entries in order |
| LoginPage.DisplayVersusAllowList | wordpress/app/public/wp-content/themes/headless-cms/template-login.php:99 | every allow-list entry is also displayed; the allow-list entry is the displayed one without its leading '@'s, dropped when that is empty |
| LoginPage.DisplayEntriesTrimmed | wordpress/app/public/wp-content/themes/headless-cms/template-login.php:99 | every displayed entry is lower-case, with no blank at either end |
| LoginPage.DisplayRow | wordpress/app/public/wp-content/themes/headless-cms/template-login.php:98-100 | a row is shown iff its domain is set and not empty in PHP's sense; what it shows is lower-case, with no blank at either end, and no longer than the raw value |
| LoginPage.BlankRowShowsEmptyEntry | wordpress/app/public/wp-content/themes/headless-cms/template-login.php:98-99 | a row of blanks passes the emptiness test and is displayed as "" |
| LoginPage.AtIsShown | wordpress/app/public/wp-content/themes/headless-cms/template-login.php:99 | a domain entered as "@ab" is displayed with its '@' |
| WordPress.Slugs | wordpress/app/public/wp-content/themes/headless-cms/functions.php:233 | one slug per term, in order |
| WordPress.AddTaxQuery | wordpress/app/public/wp-content/themes/headless-cms/functions.php:189-210 | `tax_query` is added iff there is a clause, with relation "AND" iff there are two; every other key stays |
| WordPress.TaxClausesMeaning | wordpress/app/public/wp-content/themes/headless-cms/template-library.php:41-62 | a `product_cat` slug clause exists iff categories are selected, a `product_tag` one iff tags are, the category clause comes first, and there are two clauses iff both are selected |
| WordPress.Absint | wordpress/app/public/wp-content/themes/headless-cms/template-library.php:70 | `absint` is the magnitude of its argument |
| WordPress.PagedOf | wordpress/app/public/wp-content/themes/headless-cms/template-library.php:70 | an unset page is 1, and any other is its magnitude, at least 1 |
| WordPress.MapAll | wordpress/app/public/wp-content/themes/headless-cms/functions.php:175-176 | `array_map` sanitises each element in place and keeps the length |
| ThemeFunctions.FilterProductsQuery | wordpress/app/public/wp-content/themes/headless-cms/functions.php:167-214 | see below |
| ThemeFunctions.PostedList | wordpress/app/public/wp-content/themes/headless-cms/functions.php:175-176 | an unposted list is empty, a posted list is sanitised element by element, and a single posted value has no list (the `array_map` failure) |
| ThemeFunctions.ZeroSearchIsDropped | wordpress/app/public/wp-content/themes/headless-cms/functions.php:212-214 | a search for "0" is not sent to the query |
| ThemeFunctions.CardAttributes | wordpress/app/public/wp-content/themes/headless-cms/functions.php:227-240 | `data-category` is the first category's slug or "", and `data-tags` is the tag slugs joined by spaces, or "" without tags |
| ThemeFunctions.TagsRoundTrip | wordpress/app/public/wp-content/themes/headless-cms/functions.php:240 | the browser reads back exactly the card's well-formed tag slugs, in order |
| ThemeFunctions.CategoryTestSeesFirstTermOnly | wordpress/app/public/wp-content/themes/headless-cms/functions.php:229 | a rendered card passes a category selection iff its first category is selected |
| ThemeFunctions.BodyClasses | wordpress/app/public/wp-content/themes/headless-cms/functions.php:293-310 | the result is the incoming classes followed by the theme's classes for the request, in fixed order |
| ThemeFunctions.AddClassIf | wordpress/app/public/wp-content/themes/headless-cms/functions.php:294-296 | a class is appended iff its condition holds |
| ThemeFunctions.ClassNamesDistinct | wordpress/app/public/wp-content/themes/headless-cms/functions.php:295-307 | the five class names differ |
| ThemeFunctions.ExtraClassesMeaning | wordpress/app/public/wp-content/themes/headless-cms/functions.php:293-310 | each class is present iff its own condition holds |
| ThemeFunctions.ExtraClassesDistinct | wordpress/app/public/wp-content/themes/headless-cms/functions.php:293-310 | no class is added twice |
| LibraryTemplate.ParamList | wordpress/app/public/wp-content/themes/headless-cms/template-library.php:27-28 | an unset parameter is [], a single value becomes a one-element list, and a list is sanitised element by element |
| LibraryTemplate.LibraryQuery | wordpress/app/public/wp-content/themes/headless-cms/template-library.php:27-72 | see below |
| LibraryTemplate.DefaultPaging | wordpress/app/public/wp-content/themes/headless-cms/template-library.php:70-72 | without parameters or a filter hook, the page asks for page 1 with 24 products and no tax query or search |
| LibraryTemplate.EmptyScalarStillFilters | wordpress/app/public/wp-content/themes/headless-cms/template-library.php:27 | `?categories=` becomes [""] and still adds a category clause |
| LibraryTemplate.RenderCheckboxes | wordpress/app/public/wp-content/themes/headless-cms/template-library.php:100-109 | one checkbox per term, valued by its slug and checked iff that slug is selected |
| LibraryTemplate.PreCheckMatchesRestore | wordpress/app/public/wp-content/themes/headless-cms/template-library.php:105 | given the same selection list, the boxes the server pre-checks are exactly the ones the browser checks when it restores that list |
| WordPress.PhpQueryParamIsLast | wordpress/app/public/wp-content/themes/headless-cms/template-library.php:27 | PHP sees a plain key as unset iff it is absent, and otherwise as the last of its values |
| LibraryTemplate.ReloadAsWritten | wordpress/app/public/wp-content/themes/headless-cms/template-library.php:27 | reloading a URL the catalog page wrote, the server selects only the last category, so a box the script checks from an earlier category is one the server did not pre-check |
| LibraryTemplate.ReloadTwoCategories | wordpress/app/public/wp-content/themes/headless-cms/template-library.php:27 | with categories `a` and `b` in the URL, the server pre-checks only `b` and the script then checks both |
| LibraryTemplate.ReloadAgrees | wordpress/app/public/wp-content/themes/headless-cms/template-library.php:27 | when the server reads every value of the repeated key, the boxes it pre-checks are exactly those the script restores |
| LibraryTemplate.LibraryCard | wordpress/app/public/wp-content/themes/headless-cms/template-library.php:150-163 | the page's cards carry the same attributes as the AJAX handler's |
| LibraryTemplate.CardTagTest | wordpress/app/public/wp-content/themes/headless-cms/template-library.php:163 | a rendered card passes a tag selection iff the product carries a selected tag |
| ArchiveTemplate.ArchiveHeader | wordpress/app/public/wp-content/themes/headless-cms/archive.php:18-46 | see below |
| ArchiveTemplate.ArchiveTitle | wordpress/app/public/wp-content/themes/headless-cms/archive.php:22-46 | the first matching kind of archive sets the heading: the category name, "Posts tagged: " + the tag, "Posts by " + the author, "Posts from " + the day, month or year date, "Search Results"; "Latest Articles" otherwise, including a date archive that is no day, month or year |
| ArchiveTemplate.CategorySearchKeepsRequest | wordpress/app/public/wp-content/themes/headless-cms/archive.php:25-45 | on a category archive that is also a search, the request's search stays and the category comes from the archive |
| ArchiveTemplate.PostsQuery | wordpress/app/public/wp-content/themes/headless-cms/archive.php:49-68 | see below |
| ArchiveTemplate.ReadingTime | wordpress/app/public/wp-content/themes/headless-cms/archive.php:185 | the least number of minutes at 200 words each that covers the words |
| ArchiveTemplate.ReadingTimeBounds | wordpress/app/public/wp-content/themes/headless-cms/archive.php:185 | the reading time grows with the word count; 1 to 200 words read in 1 minute, and 0 words in 0 |
| ArchiveTemplate.PostsCountLabelInjective | wordpress/app/public/wp-content/themes/headless-cms/archive.php:89 | two different totals never give the same count text |
| ArchiveTemplate.RenderRadios | wordpress/app/public/wp-content/themes/headless-cms/archive.php:105-125 | "All Categories" is checked iff the selection is empty in PHP's sense, and each category radio iff its slug is the selection |
| ArchiveTemplate.OneRadioChecked | wordpress/app/public/wp-content/themes/headless-cms/archive.php:119 | with distinct slugs at most one category radio is checked |
| ArchiveTemplate.ZeroSlugChecksTwoRadios | wordpress/app/public/wp-content/themes/headless-cms/archive.php:109-119 | a selected category with slug "0" is checked together with "All Categories" |
| ArchiveTemplate.PostCardCategory | wordpress/app/public/wp-content/themes/headless-cms/archive.php:176-178 | `data-category` is the first category's slug, or "" for a post without categories |
| ArchiveTemplate.PostCardCategoryTest | wordpress/app/public/wp-content/themes/headless-cms/archive.php:190 | the blog filter shows a rendered post for a chosen category iff the post's first category is that one |
| ProductPage.TextOr | wordpress/app/public/wp-content/themes/headless-cms/single-product.php:18-31 | `?:` keeps a field PHP reads as true and otherwise gives the default |
| ProductPage.BackgroundColor | wordpress/app/public/wp-content/themes/headless-cms/single-product.php:19 | the colour is the field when set, else `#3B82F6`, and never empty |
| ProductPage.BackgroundColorIdempotent | wordpress/app/public/wp-content/themes/headless-cms/single-product.php:19 | applying the default a second time changes nothing |
| ProductPage.DownloadUrl | wordpress/app/public/wp-content/themes/headless-cms/single-product.php:34-35 | the link's `url` when the field is an array holding one, else "" |
| ProductPage.LinkTitle | wordpress/app/public/wp-content/themes/headless-cms/single-product.php:200-202 | the link's non-empty title, else "Get It"; never empty |
| ProductPage.DownloadButtonShown | wordpress/app/public/wp-content/themes/headless-cms/single-product.php:191 | the download button shows iff the field is an array whose `url` PHP reads as true |
| ProductPage.TabCount | wordpress/app/public/wp-content/themes/headless-cms/single-product.php:50 | at most four sections |
| ProductPage.PresentTabsExactlyOnce | wordpress/app/public/wp-content/themes/headless-cms/single-product.php:46-49 | a section appears in the tab order iff its field is non-empty, and none appears twice |
| ProductPage.TabCountCountsSections | wordpress/app/public/wp-content/themes/headless-cms/single-product.php:50 | `tab_count` is the number of sections that exist; it is 0 iff none does |
| ProductPage.TabNamesDistinct | wordpress/app/public/wp-content/themes/headless-cms/single-product.php:148-227 | different sections have different tab names and panel ids |
| ProductPage.Strip | wordpress/app/public/wp-content/themes/headless-cms/single-product.php:146-161 | one item per section in order, only the first marked active |
| ProductPage.StripSnoc | wordpress/app/public/wp-content/themes/headless-cms/single-product.php:146-161 | emitting one more section extends the strip, active iff nothing was emitted before |
| ProductPage.RenderButtons | wordpress/app/public/wp-content/themes/headless-cms/single-product.php:146-161 | the buttons are the existing sections in the order features, download, how to use, FAQs, only the first active |
| ProductPage.RenderPanels | wordpress/app/public/wp-content/themes/headless-cms/single-product.php:166-232 | the panels are the same sections in the same order with id "tab-" + name, only the first active |
| ProductPage.ContentSection | wordpress/app/public/wp-content/themes/headless-cms/single-product.php:141-291 | see below |
| ProductPage.FirstTabActive | wordpress/app/public/wp-content/themes/headless-cms/single-product.php:146-232 | with tabs, exactly one button and exactly one panel start active: the first of each, for the first existing section in tab order |
| ProductPage.ClickTab | wordpress/app/public/wp-content/themes/headless-cms/assets/js/library.js:290-304 | on the rendered tabs, a click on a button leaves that button and its own panel the only active ones |
| ProductPage.FeatureIcon | wordpress/app/public/wp-content/themes/headless-cms/single-product.php:176-177 | each feature gets one of the four icons, the first four in order |
| ProductPage.IconsCycle | wordpress/app/public/wp-content/themes/headless-cms/single-product.php:243-244 | the icons repeat every four features, and four features in a row get four different icons |
| ProductPage.RenderFeatures | wordpress/app/public/wp-content/themes/headless-cms/single-product.php:172-182 | one item per feature, in order, carrying the icon of its index |
| ProductPage.RenderScreenshots | wordpress/app/public/wp-content/themes/headless-cms/single-product.php:92-126 | thumbnails and images carry their index as `data-index`, and only the first image starts active |
| ProductPage.OpenFromThumbnail | wordpress/app/public/wp-content/themes/headless-cms/assets/js/library.js:376-381 | a click on thumbnail t opens the lightbox on image t alone, with the counter at t + 1 |
| ProductPage.TemplateAsWritten | wordpress/app/public/wp-content/themes/headless-cms/single-product.php:1-53 | the code block opened on line 1 runs into the page markup, so the template is a parse error whatever the flags and markup |
| ProductPage.TemplateWithCloseTag | wordpress/app/public/wp-content/themes/headless-cms/single-product.php:1-53 | with the block closed after the flags, the template sends exactly the page markup |
| HeaderNav.ActiveClasses | wordpress/app/public/wp-content/themes/headless-cms/inc/header-nav.php:58-73 | one `active` per rule met: current item, library link on a product page, blog link on a blog-type page; none iff no rule is met |
| HeaderNav.ItemClasses | wordpress/app/public/wp-content/themes/headless-cms/inc/header-nav.php:55-73 | the classes `start_el` appends are exactly those rules |
| HeaderNav.ClassAttr | wordpress/app/public/wp-content/themes/headless-cms/inc/header-nav.php:75 | the attribute is omitted iff there are no classes, and otherwise starts with ` class="` |
| HeaderNav.ClassAttrRoundTrip | wordpress/app/public/wp-content/themes/headless-cms/inc/header-nav.php:75 | the classes can be read back from the attribute |
| HeaderNav.CurrentLibraryItemIsActiveTwice | wordpress/app/public/wp-content/themes/headless-cms/inc/header-nav.php:58-67 | a current item titled with "library" on a product page carries `active` twice: ` class="active active"` |
| HeaderNav.Anchor | wordpress/app/public/wp-content/themes/headless-cms/inc/header-nav.php:77-79 | an item's output opens with its escaped URL and ends with `</a>` |
| HeaderNav.MenuHtmlAppend | wordpress/app/public/wp-content/themes/headless-cms/inc/header-nav.php:77-79 | the menu of two item lists is the two menus one after the other |
| HeaderNav.Walker.constructor | wordpress/app/public/wp-content/themes/headless-cms/inc/header-nav.php:53 | the walker starts with empty output |
| HeaderNav.Walker.StartEl | wordpress/app/public/wp-content/themes/headless-cms/inc/header-nav.php:54-80 | `start_el` appends the item's anchor and nothing else, so the old output is a prefix of the new |
| HeaderNav.Walker.EndEl | wordpress/app/public/wp-content/themes/headless-cms/inc/header-nav.php:82-84 | `end_el` leaves the output unchanged |
| HeaderNav.Walker.StartLvl | wordpress/app/public/wp-content/themes/headless-cms/inc/header-nav.php:53 | the inherited `start_lvl` appends the level opening for the depth |
| HeaderNav.Walker.EndLvl | wordpress/app/public/wp-content/themes/headless-cms/inc/header-nav.php:53 | the inherited `end_lvl` appends the level closing for the depth |
| HeaderNav.Walker.DisplayElement | wordpress/app/public/wp-content/themes/headless-cms/inc/header-nav.php:53-85 | an item's output is its anchor, then, when it has children, the level opening, the children one level deeper and the level closing |
| HeaderNav.Walker.DisplayChildren | wordpress/app/public/wp-content/themes/headless-cms/inc/header-nav.php:53-85 | the children of an item are output one after the other, in order |
| HeaderNav.Walker.Walk | wordpress/app/public/wp-content/themes/headless-cms/inc/header-nav.php:53-85 | walking the menu appends each top-level item's output, in order |
| HeaderNav.RenderMenu | wordpress/app/public/wp-content/themes/headless-cms/inc/header-nav.php:44-86 | a menu is each item's anchor in order, with the children of an item inside the level markup right after it |
| HeaderNav.FlatMenuIsAnchors | wordpress/app/public/wp-content/themes/headless-cms/inc/header-nav.php:44-86 | a menu without nested items is exactly its items' anchors, in order |
| HeaderNav.NestedItemGetsSubMenu | wordpress/app/public/wp-content/themes/headless-cms/inc/header-nav.php:53-85 | an item's child is output inside the depth-0 level markup, right after the item's anchor |

The longer contracts, for the rows marked "see below":

- **Authentication.HandleRegistration.**
  - A failed nonce dies.
  - Otherwise the first failing check is reported. Every code except `registration_disabled` sends the visitor back to the registration form.
  - When `wp_create_user` fails, the result is `registration_failed`.
  - Otherwise the visitor is registered, with:
    - a free username, the first of the candidates built from the sanitised local part;
    - the display name taken from the name;
    - the first name and last name taken from the name split.
- **Authentication.HandleLogin.**
  - A failed nonce dies.
  - An empty email or password gives `empty_fields`.
  - A malformed address gives `invalid_email`.
  - A valid address that either has no account or fails to sign on gives `invalid_credentials`.
  - Passing every check signs the visitor in and redirects to the requested URL.
- **LoginPage.ReadQuery.**
  - The form is registration iff `mode` is exactly `register` and `success` is not `registered`.
  - The error alert is the code's text whenever `error` is set.
  - `registered` and `password_reset` set the success alert.
  - `logged_out` sets only the info alert.
  - Any other `success` value sets nothing.
- **ThemeFunctions.FilterProductsQuery.**
  - A bad nonce gives the error response.
  - A filter posted as a single string stops with a fatal error.
  - Otherwise the query contains:
    - published products, all of them, ordered by title ascending;
    - the tax clauses of the posted lists, with relation "AND" iff both lists are non-empty;
    - `s` iff the sanitised search is not empty in PHP's sense.
- **LibraryTemplate.LibraryQuery.**
  - The selections are the sanitised parameters.
  - The query contains:
    - published products, ordered by title ascending, with `no_found_rows` false;
    - one clause per non-empty selection, with "AND" iff both are non-empty;
    - `s` iff the search is not empty in PHP's sense;
    - `paged` from the query variable, at least 1;
    - `posts_per_page` equal to the filtered default of 24.
- **ArchiveTemplate.ArchiveHeader.**
  - On a category archive the selected category is the queried slug; otherwise it comes from the request.
  - The search is WordPress's search query only on a search page that is no other kind of archive.
  - The title follows the kind of archive.
  - The description is the category's, the tag's or the author's on the first matching of those archives, and empty on any other page.
- **ArchiveTemplate.PostsQuery.**
  - The query contains published posts ordered by date descending, the filtered default of 12 per page, and `paged` from the query variable.
  - `category_name` is set iff the category is not empty in PHP's sense.
  - `s` is set iff the search is not empty in PHP's sense.
- **ProductPage.ContentSection.**
  - Nothing is rendered iff no section exists.
  - Tabs are rendered iff two or more exist, with the buttons and panels above.
  - Otherwise the one existing section is rendered alone, chosen in the order features, how to use, download, FAQs. This order differs from the tab order.

## Left out

- **Case folding.** Lower-casing, `stripos` and `strtolower` fold ASCII letters only. Other Unicode case mappings are not modelled.
- **URL encoding.** `URLSearchParams` percent-encoding and parsing are not modelled. Query strings are lists of key/value pairs, and `Serialize` joins them without encoding.
- **DOM and timers.** These are not modelled:
  - DOM querying, apart from the selector lookups of the URL restore (see "Selector lookups" below), `classList`/`style` mutation and `history.replaceState`;
  - the event wiring of the grids and the search box;
  - the search debounce, the mobile menu and the body-scroll lock of the lightbox.

  Cards are records, checkbox groups are lists of boxes, and the page's URL is a field.
- **Missing grids.** The early `return` when a grid element is missing is not modelled: each page class is the page that has its grid.
- **AJAX path.** The AJAX filtering path of the theme script (`library.js:418-486`) is not modelled. It is network I/O and is switched off in the script.
- **WordPress runtime.** The following are inputs or oracles, which the model does not look inside:
  - `WP_Query` and its search semantics;
  - `get_field`, `get_terms`/`get_the_terms`/`get_categories`;
  - the sanitisers and escapers, `is_email`, `email_exists`, `username_exists`, `wp_signon` and `wp_create_user`.
- **`in_array` comparison.** The loose `in_array` of the checkbox pre-check is modelled as exact string comparison. The values are strings, so the two agree except for numeric strings such as "1" and "01".
- **Array casts.** `(array)` on a request parameter covers only a string or a list of strings.
- **Non-list filters in the AJAX handler.** A filter posted as a single string is modelled as the fatal error `array_map` raises. No other kind of posted value is modelled.
- **Redirects and gating entry points.** These are not modelled: `headless_cms_should_bypass_gating`, `headless_cms_content_gating_redirect`, `headless_cms_get_login_page_url`, `headless_cms_custom_logout_url`, `headless_cms_redirect_login_page`, the login-URL filter, the logout shortcode and the user-menu data (`inc/authentication.php:282-540`). They depend on request globals and only redirect or print.
- **Registration side effects.** `wp_update_user`, `set_role`, the new-user notification and the error log are not modelled. `HandleRegistration` returns the profile fields that would be written instead.
- **Cookies and URLs.** Remember-me cookies and the exact redirect URLs are not modelled. Only the error/success codes and the form the visitor is sent back to are modelled.
- **Product page as a PHP file.** `ProductPage.Compile` reads the template only as opening tags, closing tags, code and markup. It sees nothing of PHP's grammar beyond "markup inside a code block is an error". The rest of the product page model follows the evident intent, with the code block closed (see "## Findings").
- **Display-only fields.** Names, logos, short descriptions, screenshots' URLs and alt texts, and all other markup are not modelled.
- **Header logo and links.** The header's logo choice, the `library_url` fallback and the rest of `wp_nav_menu` outside the walker are not modelled.
- Widgets.Lightbox.Open: requires the index to lie on an image. The page renders thumbnails and images from the same list, so a thumbnail's `data-index` always does. The model does not cover an out-of-range index passed by other code.
- LoginPage.ErrorMessage: has no contract of its own. What it states is carried by `GenericIffUnknown` and `ReadQuery`.
- **Selector lookups.** The URL restore builds each lookup as `input[name="…"][value="${v}"]` from the raw decoded value. The model reads a value with no `"`, no `\` and no line break as itself. Any other value makes `querySelector` throw, and `initUrlState` stops there. In a browser some such values parse instead: an escape such as `\61` matches the box valued `a`, and a quote can close the attribute early and still leave a valid selector that finds nothing. The model does not cover those cases, nor CSS's replacement of NUL characters. The throw also skips `initAjaxFiltering` and `initMobileMenu` in `init`. Neither is modelled: the first returns at once while AJAX is off, and the second is empty.
- ThemePages.FirstWithValue: an exact-value lookup; it is correct only for the values described under "Selector lookups".
- ThemePages.CheckValue: states only that the number of boxes is kept; it is the exact lookup, used only for safe values.
- ThemePages.CheckAll: states only that the number of boxes is kept; it is the loop with exact lookups, which equals the loop as written (`CheckAllAsWritten`) when every value is safe (`CheckAllAsWrittenMeaning`).
- ThemePages.CheckAllEffect: is about the exact lookup; with an unsafe value the page runs `CheckAllAsWritten` instead.
- ThemePages.FirstRadio: an exact-value lookup; `BlogPage.InitUrlState` uses it only for a safe value.
- HeaderNav.Walker.StartLvl, HeaderNav.Walker.EndLvl: the level markup of WordPress's `Walker_Nav_Menu` (a `<ul class="sub-menu">` and its `</ul>`, with white space) is the parameter `Levels`, because WordPress core is not part of this model. The walk takes the menu as a tree with no depth limit, as `wp_nav_menu` passes it by default. How WordPress builds that tree from the parent ids of the items is not modelled.
- **Client page URL.** The client catalog page keeps no URL state, so `platforms` and `features` never appear in a query string.

## Findings

| source | as written | input that shows it | evidently intended | confidence | as-written member | corrected member |
|---|---|---|---|---|---|---|
| wordpress/app/public/wp-content/themes/headless-cms/assets/js/library.js:511 | each decoded category is put unescaped inside the quotes of a selector, so a quote in it makes `querySelector` throw | the catalog URL `?categories=x%22y&categories=b`: the lookup of `x"y` throws, the box `b` stays unchecked and no filter runs | every decoded value is matched as a literal attribute value, as an escaped selector would | not executed | ThemePages.QuoteStopsLaterValues | ThemePages.CheckAllEffect |
| wordpress/app/public/wp-content/themes/headless-cms/template-library.php:27 | the script writes one plain `categories` key per selected category, but PHP keeps only the last value of a repeated key without `[]` | select `a` and `b` on the catalog page, then reload `?categories=a&categories=b`: the server queries and pre-checks `b` only, and the script checks `a` as well | the server reads every value the script wrote, so the rendered products and boxes match the restored selection | not executed | LibraryTemplate.ReloadAsWritten | LibraryTemplate.ReloadAgrees |
| wordpress/app/public/wp-content/themes/headless-cms/single-product.php:51-53 | the code block opened on line 1 has no `?>` before the markup on line 53 | any single product request: PHP rejects the file at the `<div` on line 53 | a `?>` after line 51, so the computed flags are followed by the page markup | not executed | ProductPage.TemplateAsWritten | ProductPage.TemplateWithCloseTag |
