/**
 * The theme's `functions.php`: the AJAX handler that builds the product
 * query from the posted filters, the data attributes each rendered
 * product card carries for the browser-side filter, and the extra body
 * classes.
 */
module ThemeFunctions {
  import opened Text
  import opened WordPress
  import CardFilter

  /** The fixed part of the AJAX product query: published products, all of
      them, by title ascending. */
  const AjaxBase := QueryArgs("product", Some(-1), "title", "ASC", "publish", None, None, None, None, None)

  /** The handler's answer: the JSON error for a bad nonce, a fatal error
      when a filter is posted as a single string (`array_map` refuses it),
      or the query it runs. */
  datatype AjaxOutcome = InvalidNonce | Fatal | RunQuery(args: QueryArgs)

  /** The posted list, or [] when it is not posted; a single posted value
      has no list, and `array_map` fails on it. */
  function PostedList(p: Param, sanitize: string -> string): (r: Option<seq<string>>)
    ensures r.None? <==> p.Scalar?
    ensures p.Unset? ==> r == Some([])
    ensures p.List? ==> |r.value| == |p.items| && forall i :: 0 <= i < |p.items| ==> r.value[i] == sanitize(p.items[i])
  {
    match p
    case Unset => Some([])
    case Scalar(_) => None
    case List(xs) => Some(MapAll(sanitize, xs))
  }

  /** `headless_cms_filter_products` up to the `WP_Query` call. */
  method FilterProductsQuery(nonceOk: bool, categories: Param, tags: Param, search: Option<string>,
                             sanitize: string -> string) returns (outcome: AjaxOutcome)
    ensures !nonceOk <==> outcome == InvalidNonce
    ensures nonceOk && (categories.Scalar? || tags.Scalar?) <==> outcome == Fatal
    ensures outcome.RunQuery? ==>
      var cats := PostedList(categories, sanitize).value;
      var tgs := PostedList(tags, sanitize).value;
      var s := if search.Some? then sanitize(search.value) else "";
      && outcome.args.postType == "product" && outcome.args.postsPerPage == Some(-1)
      && outcome.args.orderby == "title" && outcome.args.order == "ASC" && outcome.args.postStatus == "publish"
      && outcome.args.paged.None? && outcome.args.categoryName.None?
      && (outcome.args.taxQuery.None? <==> TaxClauses(cats, tgs) == [])
      && (outcome.args.taxQuery.Some? ==>
            (&& outcome.args.taxQuery.value.clauses == TaxClauses(cats, tgs)
             && (outcome.args.taxQuery.value.relation == Some("AND") <==> cats != [] && tgs != [])
             && (outcome.args.taxQuery.value.relation.None? <==> !(cats != [] && tgs != []))))
      && (outcome.args.search.Some? <==> !PhpEmpty(s))
      && (outcome.args.search.Some? ==> outcome.args.search.value == s)
  {
    if !nonceOk {
      return InvalidNonce;
    }
    var cats := PostedList(categories, sanitize);
    var tgs := PostedList(tags, sanitize);
    if cats.None? || tgs.None? {
      return Fatal;
    }
    var s := if search.Some? then sanitize(search.value) else "";
    var args := AjaxBase;
    args := AddTaxQuery(args, cats.value, tgs.value);
    if !PhpEmpty(s) {
      args := args.(search := Some(s));
    }
    TaxClausesMeaning(cats.value, tgs.value);
    outcome := RunQuery(args);
  }

  /** A search for "0" counts as empty and is not sent. */
  method ZeroSearchIsDropped(sanitize: string -> string) returns (outcome: AjaxOutcome)
    requires sanitize("0") == "0"
    ensures outcome.RunQuery? && outcome.args.search.None?
  {
    outcome := FilterProductsQuery(true, Unset, Unset, Some("0"), sanitize);
  }

  /** The `data-category` and `data-tags` attributes of a product card: the
      first category's slug or "", and the tag slugs joined by spaces. */
  function CardAttributes(cats: Terms, tags: Terms): (r: (string, string))
    ensures r.0 == (if HasTerms(cats) then cats.terms[0].slug else "")
    ensures HasTerms(tags) ==> r.1 == Join(Slugs(tags.terms), ' ')
    ensures !HasTerms(tags) ==> r.1 == ""
  {
    var category := if HasTerms(cats) then cats.terms[0].slug else "";
    var tagSlugs := if HasTerms(tags) then Slugs(tags.terms) else [];
    (category, Join(tagSlugs, ' '))
  }

  /** Slugs as WordPress makes them: non-empty and without spaces. */
  predicate SlugsWellFormed(t: Terms) {
    t.TermList? ==> forall k :: 0 <= k < |t.terms| ==> t.terms[k].slug != "" && Free(t.terms[k].slug, ' ')
  }

  /** The browser reads back exactly the card's tag slugs, in order, and
      none for a product without tags. */
  lemma TagsRoundTrip(cats: Terms, tags: Terms)
    requires SlugsWellFormed(tags)
    ensures CardFilter.CardTags(CardAttributes(cats, tags).1) == (if HasTerms(tags) then Slugs(tags.terms) else [])
  {
    var slugs := if HasTerms(tags) then Slugs(tags.terms) else [];
    CardFilter.CardTagsInvertsJoin(slugs);
  }

  /** The browser's category test sees only the first category: a card
      passes a category selection iff its first category is selected, while
      the server's category clause accepts a product with any selected term. */
  lemma CategoryTestSeesFirstTermOnly(cats: Terms, tags: Terms, title: string, description: string, selected: seq<string>)
    requires selected != [] && HasTerms(cats)
    ensures var card := CardFilter.ProductCard(CardAttributes(cats, tags).0, CardAttributes(cats, tags).1, title, description);
      CardFilter.ProductCardVisible(card, selected, [], "") <==> cats.terms[0].slug in selected
  {
  }

  /** The body classes the theme adds. */
  const LibraryPage := "library-page"
  const SingleProductPage := "single-product-page"
  const SinglePostPage := "single-post-page"
  const BlogArchivePage := "blog-archive-page"
  const DefaultPage := "default-page"

  /** `headless_cms_body_classes`: the incoming classes, then the extra
      ones, each added by its own test. */
  method BodyClasses(classes: seq<string>, r: Request) returns (result: seq<string>)
    ensures result == classes + ExtraClasses(r)
  {
    var w1, w2, w3 := When(r.libraryTemplate, LibraryPage), When(r.singularProduct, SingleProductPage),
                      When(r.singularPost, SinglePostPage);
    var w4, w5 := When(r.archive || r.home || r.search, BlogArchivePage), When(r.page && !r.pageTemplate, DefaultPage);
    result := AddClassIf(classes, r.libraryTemplate, LibraryPage);
    result := AddClassIf(result, r.singularProduct, SingleProductPage);
    AppendAssoc(classes, w1, w2);
    result := AddClassIf(result, r.singularPost, SinglePostPage);
    AppendAssoc(classes, w1 + w2, w3);
    result := AddClassIf(result, r.archive || r.home || r.search, BlogArchivePage);
    AppendAssoc(classes, w1 + w2 + w3, w4);
    result := AddClassIf(result, r.page && !r.pageTemplate, DefaultPage);
    AppendAssoc(classes, w1 + w2 + w3 + w4, w5);
  }

  /** `if (condition) { $classes[] = name; }` */
  method AddClassIf(classes: seq<string>, condition: bool, name: string) returns (result: seq<string>)
    ensures result == classes + When(condition, name)
  {
    result := classes;
    if condition {
      result := result + [name];
    }
  }

  /** The class `name` when `condition` holds, else nothing. */
  function When(condition: bool, name: string): seq<string> {
    if condition then [name] else []
  }

  /** The classes the theme adds for a request, in order. */
  function ExtraClasses(r: Request): seq<string> {
    When(r.libraryTemplate, LibraryPage) + When(r.singularProduct, SingleProductPage)
    + When(r.singularPost, SinglePostPage) + When(r.archive || r.home || r.search, BlogArchivePage)
    + When(r.page && !r.pageTemplate, DefaultPage)
  }

  /** The five class names are different from each other. */
  lemma ClassNamesDistinct()
    ensures LibraryPage != SingleProductPage && LibraryPage != SinglePostPage
    ensures LibraryPage != BlogArchivePage && LibraryPage != DefaultPage
    ensures SingleProductPage != SinglePostPage && SingleProductPage != BlogArchivePage
    ensures SingleProductPage != DefaultPage && SinglePostPage != BlogArchivePage
    ensures SinglePostPage != DefaultPage && BlogArchivePage != DefaultPage
  {
    assert LibraryPage[0] == 'l' && SingleProductPage[0] == 's' && SinglePostPage[0] == 's';
    assert BlogArchivePage[0] == 'b' && DefaultPage[0] == 'd';
    assert SingleProductPage[8] == 'r' && SinglePostPage[8] == 'o';
  }

  /** Each class is added iff its condition holds. */
  lemma ExtraClassesMeaning(r: Request)
    ensures LibraryPage in ExtraClasses(r) <==> r.libraryTemplate
    ensures SingleProductPage in ExtraClasses(r) <==> r.singularProduct
    ensures SinglePostPage in ExtraClasses(r) <==> r.singularPost
    ensures BlogArchivePage in ExtraClasses(r) <==> r.archive || r.home || r.search
    ensures DefaultPage in ExtraClasses(r) <==> r.page && !r.pageTemplate
  {
    ClassNamesDistinct();
  }

  /** No class is added twice. */
  lemma ExtraClassesDistinct(r: Request)
    ensures forall i, j :: 0 <= i < j < |ExtraClasses(r)| ==> ExtraClasses(r)[i] != ExtraClasses(r)[j]
  {
    ClassNamesDistinct();
  }
}
