/**
 * The library page template: it reads the `categories`, `tags` and
 * `search` request parameters, builds the paginated product query,
 * renders the filter checkboxes pre-checked from the selection, and
 * renders each product card with the data attributes the browser filter
 * reads.
 */
module LibraryTemplate {
  import opened Text
  import opened WordPress
  import opened UrlParams
  import ThemePages
  import ThemeFunctions
  import CardFilter

  /** `isset(...) ? array_map('sanitize_text_field', (array) ...) : []`: a
      single value becomes a one-element list. */
  function ParamList(p: Param, sanitize: string -> string): (r: seq<string>)
    ensures p.Unset? ==> r == []
    ensures p.Scalar? ==> r == [sanitize(p.s)]
    ensures p.List? ==> |r| == |p.items| && forall i :: 0 <= i < |r| ==> r[i] == sanitize(p.items[i])
  {
    match p
    case Unset => []
    case Scalar(s) => [sanitize(s)]
    case List(xs) => MapAll(sanitize, xs)
  }

  /** The fixed part of the library query. */
  const LibraryBase := QueryArgs("product", None, "title", "ASC", "publish", Some(false), None, None, None, None)

  /** The selection and query of the page. `pagedVar` is the `paged` query
      variable (0 when unset) and `perPage` the `headless_cms_library_products_per_page`
      filter applied to the default. */
  method LibraryQuery(categories: Param, tags: Param, search: Option<string>, pagedVar: int,
                      perPage: int -> int, sanitize: string -> string)
    returns (selectedCategories: seq<string>, selectedTags: seq<string>, searchQuery: string, args: QueryArgs)
    ensures selectedCategories == ParamList(categories, sanitize) && selectedTags == ParamList(tags, sanitize)
    ensures searchQuery == (if search.Some? then sanitize(search.value) else "")
    ensures args.postType == "product" && args.orderby == "title" && args.order == "ASC"
    ensures args.postStatus == "publish" && args.noFoundRows == Some(false) && args.categoryName.None?
    ensures args.taxQuery.None? <==> selectedCategories == [] && selectedTags == []
    ensures args.taxQuery.Some? ==>
      (&& args.taxQuery.value.clauses == TaxClauses(selectedCategories, selectedTags)
       && (args.taxQuery.value.relation.Some? <==> selectedCategories != [] && selectedTags != [])
       && (args.taxQuery.value.relation.Some? ==> args.taxQuery.value.relation.value == "AND"))
    ensures args.search.Some? <==> !PhpEmpty(searchQuery)
    ensures args.search.Some? ==> args.search.value == searchQuery
    ensures args.paged == Some(PagedOf(pagedVar)) && args.paged.value >= 1
    ensures args.postsPerPage == Some(perPage(24))
  {
    selectedCategories := ParamList(categories, sanitize);
    selectedTags := ParamList(tags, sanitize);
    searchQuery := if search.Some? then sanitize(search.value) else "";
    args := LibraryBase;
    args := AddTaxQuery(args, selectedCategories, selectedTags);
    TaxClausesMeaning(selectedCategories, selectedTags);
    if !PhpEmpty(searchQuery) {
      args := args.(search := Some(searchQuery));
    }
    var paged := if pagedVar != 0 then Absint(pagedVar) else 1;
    args := args.(paged := Some(paged));
    args := args.(postsPerPage := Some(perPage(24)));
  }

  /** Without a filter hook the page shows 24 products, from page 1 unless
      asked otherwise. */
  method DefaultPaging(sanitize: string -> string) returns (args: QueryArgs)
    ensures args.postsPerPage == Some(24) && args.paged == Some(1) && args.taxQuery.None? && args.search.None?
  {
    var cats, tags, search;
    cats, tags, search, args := LibraryQuery(Unset, Unset, None, 0, n => n, sanitize);
  }

  /** A parameter sent as an empty string still filters: it becomes the
      one-element list [""] and yields a category clause. */
  lemma EmptyScalarStillFilters(sanitize: string -> string)
    requires sanitize("") == ""
    ensures ParamList(Scalar(""), sanitize) == [""]
    ensures TaxClauses(ParamList(Scalar(""), sanitize), []) == [TaxClause("product_cat", "slug", [""])]
  {
  }

  /** The checkboxes the page renders for one taxonomy and selection. */
  function Checkboxes(terms: seq<Term>, selected: seq<string>): seq<ThemePages.Box> {
    seq(|terms|, i requires 0 <= i < |terms| => ThemePages.Box(terms[i].slug, terms[i].slug in selected))
  }

  /** No two terms of a taxonomy share a slug. */
  predicate DistinctSlugs(terms: seq<Term>) {
    forall i, j :: 0 <= i < j < |terms| ==> terms[i].slug != terms[j].slug
  }

  /** The checkboxes of one taxonomy: one per term, checked iff its slug
      is among the selected values. */
  method RenderCheckboxes(terms: seq<Term>, selected: seq<string>) returns (boxes: seq<ThemePages.Box>)
    ensures boxes == Checkboxes(terms, selected)
    ensures |boxes| == |terms|
    ensures forall i :: 0 <= i < |terms| ==> boxes[i].value == terms[i].slug
    ensures forall i :: 0 <= i < |terms| ==> (boxes[i].checked <==> terms[i].slug in selected)
  {
    boxes := [];
    for i := 0 to |terms|
      invariant |boxes| == i
      invariant forall k :: 0 <= k < i ==> boxes[k] == ThemePages.Box(terms[k].slug, terms[k].slug in selected)
    {
      boxes := boxes + [ThemePages.Box(terms[i].slug, terms[i].slug in selected)];
    }
  }

  /** Given the same selection list, the server and the browser agree on
      the checkboxes: restoring the list on unchecked boxes checks exactly
      the boxes the server pre-checks. */
  lemma PreCheckMatchesRestore(boxes: seq<ThemePages.Box>, selected: seq<string>)
    requires ThemePages.DistinctValues(boxes)
    requires forall i :: 0 <= i < |boxes| ==> (boxes[i].checked <==> boxes[i].value in selected)
    ensures ThemePages.CheckAll(ThemePages.Unchecked(boxes), selected) == boxes
  {
    var u := ThemePages.Unchecked(boxes);
    assert ThemePages.DistinctValues(u);
    ThemePages.CheckAllEffect(u, selected);
    var r := ThemePages.CheckAll(u, selected);
    assert forall j :: 0 <= j < |boxes| ==> r[j] == boxes[j];
  }

  /** Reloading a URL the catalog page wrote: PHP reads only the last of
      the repeated `categories` values, so a box the script checks from an
      earlier value is one the server neither queried for nor pre-checked. */
  lemma ReloadAsWritten(terms: seq<Term>, cats: seq<string>, tags: seq<string>, search: string,
                        sanitize: string -> string, i: nat)
    requires DistinctSlugs(terms) && cats != [] && sanitize(cats[|cats| - 1]) == cats[|cats| - 1]
    requires i < |terms| && terms[i].slug in cats && terms[i].slug != cats[|cats| - 1]
    ensures var url := ProductParams(cats, tags, search);
      ParamList(PhpQueryParam(url, "categories"), sanitize) == [cats[|cats| - 1]]
    ensures var url := ProductParams(cats, tags, search);
      var server := Checkboxes(terms, ParamList(PhpQueryParam(url, "categories"), sanitize));
      !server[i].checked && ThemePages.CheckAll(server, GetAll(url, "categories"))[i].checked
  {
    var url := ProductParams(cats, tags, search);
    ProductParamsDecode(cats, tags, search);
    PhpQueryParamIsLast(url, "categories");
    var server := Checkboxes(terms, [cats[|cats| - 1]]);
    assert ThemePages.DistinctValues(server);
    ThemePages.CheckAllEffect(server, cats);
  }

  /** Two categories selected on the catalog page: after a reload the first
      box is checked by the script although the server skipped it. */
  lemma ReloadTwoCategories()
    ensures var url := ProductParams(["a", "b"], [], "");
      var server := Checkboxes([Term("A", "a"), Term("B", "b")], ParamList(PhpQueryParam(url, "categories"), s => s));
      server == [ThemePages.Box("a", false), ThemePages.Box("b", true)]
      && ThemePages.CheckAll(server, GetAll(url, "categories")) == [ThemePages.Box("a", true), ThemePages.Box("b", true)]
  {
    var terms := [Term("A", "a"), Term("B", "b")];
    assert "a" != "b" by { assert "a"[0] != "b"[0]; }
    ReloadAsWritten(terms, ["a", "b"], [], "", s => s, 0);
    var server := Checkboxes(terms, ["b"]);
    ThemePages.CheckAllEffect(server, ["a", "b"]);
  }

  /** With every repeated value read, the reloaded page agrees with the
      script: the boxes the server pre-checks are exactly those the
      address bar restores. */
  lemma ReloadAgrees(terms: seq<Term>, cats: seq<string>, tags: seq<string>, search: string,
                     sanitize: string -> string)
    requires DistinctSlugs(terms)
    requires forall k :: 0 <= k < |cats| ==> sanitize(cats[k]) == cats[k]
    ensures var url := ProductParams(cats, tags, search);
      var server := Checkboxes(terms, ParamList(List(GetAll(url, "categories")), sanitize));
      ThemePages.CheckAll(server, GetAll(url, "categories")) == server
      && forall k :: 0 <= k < |terms| ==> (server[k].checked <==> terms[k].slug in cats)
  {
    var url := ProductParams(cats, tags, search);
    ProductParamsDecode(cats, tags, search);
    assert ParamList(List(cats), sanitize) == cats;
    var server := Checkboxes(terms, cats);
    assert ThemePages.DistinctValues(server);
    ThemePages.CheckAllEffect(server, cats);
    var r := ThemePages.CheckAll(server, cats);
    assert forall j :: 0 <= j < |server| ==> r[j] == server[j];
  }

  /** The `data-category` and `data-tags` attributes of a card the page
      renders, as the AJAX handler renders them. */
  function LibraryCard(cats: Terms, tags: Terms, title: string, description: string): (card: CardFilter.ProductCard)
    ensures card.category == ThemeFunctions.CardAttributes(cats, tags).0
    ensures card.tags == ThemeFunctions.CardAttributes(cats, tags).1
  {
    var attrs := ThemeFunctions.CardAttributes(cats, tags);
    CardFilter.ProductCard(attrs.0, attrs.1, title, description)
  }

  /** A rendered card passes the browser's tag test for a tag selection iff
      the product carries one of the selected tags. */
  lemma CardTagTest(cats: Terms, tags: Terms, title: string, description: string, selected: seq<string>)
    requires selected != [] && ThemeFunctions.SlugsWellFormed(tags)
    ensures CardFilter.ProductCardVisible(LibraryCard(cats, tags, title, description), [], selected, "")
      <==> HasTerms(tags) && exists t :: t in selected && t in Slugs(tags.terms)
  {
    ThemeFunctions.TagsRoundTrip(cats, tags);
  }
}
